/**
 What Tower's answers mean for a grant, told by their fields and statuses: which answers give access, and what each kind
 of answer makes of a revocation. The verifiers are held against this reading of them.
 */
module TowerAnswers {
  import opened AccessGrant
  import opened Json
  import opened TowerVerify
  import opened Wrappers

  // ----- what a body says -----

  /** One of the five marks by which an answer says that access stands. */
  predicate MarksAccess(body: Json) {
    || Get(body, Key.Allowed) == Bool(true)
    || Get(body, Key.Active) == Bool(true)
    || Get(body, Key.Verified) == Bool(true)
    || Get(body, Key.CurrentMember) == Bool(true)
    || Get(body, Key.Membership).Obj?
    || Get(body, Key.Membership).Arr?
  }

  /** The first of the values that is a text, trimmed. */
  function FirstText(values: seq<Json>): string {
    if values == [] then ""
    else if GetString(values[0]).Some? then GetString(values[0]).value
    else FirstText(values[1..])
  }

  function StatusText(body: Json): string {
    FirstText([Get(body, Key.Status), Get(body, Key.State)])
  }

  function ReasonText(body: Json): string {
    FirstText([Get(body, Key.Reason), Get(body, Key.DetailCode), Get(body, Key.Code)])
  }

  predicate MarksDeletion(body: Json) {
    || Get(body, Key.Deleted) == Bool(true)
    || Get(body, Key.Tombstoned) == Bool(true)
    || StatusText(body) in {"deleted", "tombstoned"}
    || ReasonText(body) in {"workspace_deleted", "workspace_tombstoned"}
  }

  predicate MarksLoss(body: Json) {
    || Get(body, Key.Allowed) == Bool(false)
    || Get(body, Key.Active) == Bool(false)
    || Get(body, Key.Verified) == Bool(false)
    || Get(body, Key.CurrentMember) == Bool(false)
    || Get(body, Key.Member) == Bool(false)
    || StatusText(body) in {"revoked", "inactive"}
    || ReasonText(body) in {"workspace_access_revoked", "workspace_membership_revoked", "not_workspace_member"}
  }

  /** Every text among the values is one of the expected values; where none is expected, anything goes. */
  predicate SaysOnly(values: seq<Json>, expected: set<Json>) {
    (exists e <- expected :: Truthy(e)) ==>
      forall v <- values :: GetString(v).Some? ==> Str(GetString(v).value) in expected
  }

  // ----- what a body says about identities, and where -----

  function Described(body: Json): Json {
    Get(Get(body, Key.Descriptor), Key.Identity)
  }

  function TowerTexts(body: Json): seq<Json> {
    [
      Get(body, Key.ServiceNpub), Get(body, Key.TowerServiceNpub), Get(Get(body, Key.Service), Key.ServiceNpub),
      Get(Get(body, Key.Workspace), Key.TowerServiceNpub), Get(Get(body, Key.Identity), Key.TowerServiceNpub),
      Get(Described(body), Key.TowerServiceNpub)
    ]
  }

  function WorkspaceServiceTexts(body: Json): seq<Json> {
    [
      Get(body, Key.WorkspaceServiceNpub), Get(Get(body, Key.Workspace), Key.WorkspaceServiceNpub),
      Get(Get(body, Key.Identity), Key.WorkspaceServiceNpub), Get(Described(body), Key.WorkspaceServiceNpub)
    ]
  }

  function OwnerTexts(body: Json): seq<Json> {
    [
      Get(body, Key.WorkspaceOwnerNpub), Get(body, Key.OwnerNpub), Get(Get(body, Key.Workspace), Key.OwnerNpub),
      Get(Get(body, Key.Workspace), Key.WorkspaceOwnerNpub), Get(Get(body, Key.Identity), Key.WorkspaceOwnerNpub),
      Get(Described(body), Key.WorkspaceOwnerNpub)
    ]
  }

  function WorkspaceIdTexts(body: Json): seq<Json> {
    [
      Get(body, Key.WorkspaceId), Get(body, Key.V4WorkspaceId), Get(Get(body, Key.Workspace), Key.WorkspaceId),
      Get(Get(body, Key.Workspace), Key.V4WorkspaceId), Get(Get(body, Key.Identity), Key.WorkspaceId),
      Get(Described(body), Key.WorkspaceId)
    ]
  }

  function AppTexts(body: Json): seq<Json> {
    [
      Get(body, Key.AppNpub), Get(Get(body, Key.Workspace), Key.AppNpub), Get(Get(body, Key.Identity), Key.AppNpub),
      Get(Described(body), Key.AppNpub)
    ]
  }

  function RecipientTexts(body: Json): seq<Json> {
    [
      Get(body, Key.RecipientNpub), Get(body, Key.Viewer), Get(body, Key.ViewerNpub), Get(body, Key.MemberNpub),
      Get(Get(body, Key.Actor), Key.Npub)
    ]
  }

  /** Whatever the body says about tower, workspace, owner, app and recipient is what the grant says. */
  predicate Fits(body: Json, grant: Grant) {
    var workspace := Get(grant.payload, Key.Workspace);
    && SaysOnly(TowerTexts(body), {grant.serviceNpub})
    && SaysOnly(WorkspaceServiceTexts(body), {grant.workspaceServiceNpub})
    && SaysOnly(OwnerTexts(body), {grant.workspaceOwnerNpub})
    && SaysOnly(WorkspaceIdTexts(body), {Value(GetString(Get(workspace, Key.WorkspaceId)))})
    && SaysOnly(AppTexts(body), {grant.appNpub, Value(GetString(Get(workspace, Key.AppNpub)))})
    && SaysOnly(RecipientTexts(body), {Str(grant.recipientNpub)})
  }

  // ----- the identity check -----

  lemma AtPaths(body: Json, a: Key, b: Key, c: Key)
    ensures At(body, [a]) == Get(body, a) && At(body, [a, b]) == Get(Get(body, a), b)
    ensures At(body, [a, b, c]) == Get(Get(Get(body, a), b), c)
  {
    hide Get;
    assert [a][1..] == [] && [a, b][1..] == [b] && [b][1..] == [] && [a, b, c][1..] == [b, c] && [b, c][1..] == [c];
    var first := Get(body, a);
    var second := Get(first, b);
    assert At(body, [a]) == At(first, []) && At(first, [b]) == At(second, []) && At(second, [c]) == Get(second, c);
    assert At(body, [a, b]) == At(first, [b]) && At(first, [b, c]) == At(second, [c]);
  }

  ghost predicate AreFound(body: Json, paths: seq<seq<Key>>, values: seq<Json>) {
    |paths| == |values| && forall i | 0 <= i < |paths| :: At(body, paths[i]) == values[i]
  }

  /** Looking along the paths is looking at the values found there. */
  lemma PathsSayOnly(body: Json, paths: seq<seq<Key>>, expected: seq<Json>, values: seq<Json>, allowed: set<Json>)
    requires AreFound(body, paths, values)
    requires (forall e <- expected :: e in allowed) && (forall e <- allowed :: Truthy(e) ==> e in expected)
    ensures ExposedValuesMatch(body, paths, expected) <==> SaysOnly(values, allowed)
  {
    hide At, GetString;
    if ExposedValuesMatch(body, paths, expected) && (exists e <- allowed :: Truthy(e)) {
      forall v <- values | GetString(v).Some? ensures Str(GetString(v).value) in allowed {
        var i :| 0 <= i < |values| && values[i] == v;
        assert paths[i] in paths;
      }
    }
    if SaysOnly(values, allowed) && !(forall e <- expected :: !Truthy(e)) {
      forall path <- paths | GetString(At(body, path)).Some? ensures Str(GetString(At(body, path)).value) in expected {
        var i :| 0 <= i < |paths| && paths[i] == path;
        assert values[i] in values;
        TextIsTruthy(values[i]);
      }
    }
  }

  lemma TextIsTruthy(v: Json)
    requires GetString(v).Some?
    ensures Truthy(Str(GetString(v).value))
  {
  }

  lemma TowerPaths(body: Json)
    ensures AreFound(body, TOWER_PATHS, TowerTexts(body))
  {
    hide Get, At;
    AtPaths(body, Key.ServiceNpub, Key.ServiceNpub, Key.ServiceNpub);
    AtPaths(body, Key.TowerServiceNpub, Key.TowerServiceNpub, Key.TowerServiceNpub);
    AtPaths(body, Key.Service, Key.ServiceNpub, Key.ServiceNpub);
    AtPaths(body, Key.Workspace, Key.TowerServiceNpub, Key.TowerServiceNpub);
    AtPaths(body, Key.Identity, Key.TowerServiceNpub, Key.TowerServiceNpub);
    AtPaths(body, Key.Descriptor, Key.Identity, Key.TowerServiceNpub);
  }

  lemma WorkspaceServicePaths(body: Json)
    ensures AreFound(body, WORKSPACE_SERVICE_PATHS, WorkspaceServiceTexts(body))
  {
    hide Get, At;
    AtPaths(body, Key.WorkspaceServiceNpub, Key.WorkspaceServiceNpub, Key.WorkspaceServiceNpub);
    AtPaths(body, Key.Workspace, Key.WorkspaceServiceNpub, Key.WorkspaceServiceNpub);
    AtPaths(body, Key.Identity, Key.WorkspaceServiceNpub, Key.WorkspaceServiceNpub);
    AtPaths(body, Key.Descriptor, Key.Identity, Key.WorkspaceServiceNpub);
  }

  lemma OwnerPaths(body: Json)
    ensures AreFound(body, OWNER_PATHS, OwnerTexts(body))
  {
    hide Get, At;
    AtPaths(body, Key.WorkspaceOwnerNpub, Key.WorkspaceOwnerNpub, Key.WorkspaceOwnerNpub);
    AtPaths(body, Key.OwnerNpub, Key.OwnerNpub, Key.OwnerNpub);
    AtPaths(body, Key.Workspace, Key.OwnerNpub, Key.OwnerNpub);
    AtPaths(body, Key.Workspace, Key.WorkspaceOwnerNpub, Key.WorkspaceOwnerNpub);
    AtPaths(body, Key.Identity, Key.WorkspaceOwnerNpub, Key.WorkspaceOwnerNpub);
    AtPaths(body, Key.Descriptor, Key.Identity, Key.WorkspaceOwnerNpub);
  }

  lemma WorkspaceIdPaths(body: Json)
    ensures AreFound(body, WORKSPACE_ID_PATHS, WorkspaceIdTexts(body))
  {
    hide Get, At;
    AtPaths(body, Key.WorkspaceId, Key.WorkspaceId, Key.WorkspaceId);
    AtPaths(body, Key.V4WorkspaceId, Key.V4WorkspaceId, Key.V4WorkspaceId);
    AtPaths(body, Key.Workspace, Key.WorkspaceId, Key.WorkspaceId);
    AtPaths(body, Key.Workspace, Key.V4WorkspaceId, Key.V4WorkspaceId);
    AtPaths(body, Key.Identity, Key.WorkspaceId, Key.WorkspaceId);
    AtPaths(body, Key.Descriptor, Key.Identity, Key.WorkspaceId);
  }

  lemma AppPaths(body: Json)
    ensures AreFound(body, APP_PATHS, AppTexts(body))
  {
    hide Get, At;
    AtPaths(body, Key.AppNpub, Key.AppNpub, Key.AppNpub);
    AtPaths(body, Key.Workspace, Key.AppNpub, Key.AppNpub);
    AtPaths(body, Key.Identity, Key.AppNpub, Key.AppNpub);
    AtPaths(body, Key.Descriptor, Key.Identity, Key.AppNpub);
  }

  lemma RecipientPaths(body: Json)
    ensures AreFound(body, RECIPIENT_PATHS, RecipientTexts(body))
  {
    hide Get, At;
    AtPaths(body, Key.RecipientNpub, Key.RecipientNpub, Key.RecipientNpub);
    AtPaths(body, Key.Viewer, Key.Viewer, Key.Viewer);
    AtPaths(body, Key.ViewerNpub, Key.ViewerNpub, Key.ViewerNpub);
    AtPaths(body, Key.MemberNpub, Key.MemberNpub, Key.MemberNpub);
    AtPaths(body, Key.Actor, Key.Npub, Key.Npub);
  }

  /** The identity check passes exactly for bodies that fit the grant. */
  lemma IdentityExactly(body: Json, grant: Grant)
    ensures IdentityMatches(body, grant) <==> Fits(body, grant)
  {
    TowerPaths(body);
    WorkspaceServicePaths(body);
    OwnerPaths(body);
    WorkspaceIdPaths(body);
    AppPaths(body);
    RecipientPaths(body);
    hide AreFound, ExposedValuesMatch, SaysOnly, TowerTexts, WorkspaceServiceTexts, OwnerTexts, WorkspaceIdTexts,
        AppTexts, RecipientTexts, Get, GetString, TOWER_PATHS, WORKSPACE_SERVICE_PATHS, OWNER_PATHS,
        WORKSPACE_ID_PATHS, APP_PATHS, RECIPIENT_PATHS;
    var workspace := Get(grant.payload, Key.Workspace);
    var id, app := Value(GetString(Get(workspace, Key.WorkspaceId))), Value(GetString(Get(workspace, Key.AppNpub)));
    PathsSayOnly(body, TOWER_PATHS, [grant.serviceNpub], TowerTexts(body), {grant.serviceNpub});
    PathsSayOnly(body, WORKSPACE_SERVICE_PATHS, [grant.workspaceServiceNpub], WorkspaceServiceTexts(body),
                 {grant.workspaceServiceNpub});
    PathsSayOnly(body, OWNER_PATHS, [grant.workspaceOwnerNpub], OwnerTexts(body), {grant.workspaceOwnerNpub});
    PathsSayOnly(body, WORKSPACE_ID_PATHS, [id], WorkspaceIdTexts(body), {id});
    PathsSayOnly(body, APP_PATHS, [WorkspaceApp(grant), grant.appNpub], AppTexts(body), {grant.appNpub, app});
    PathsSayOnly(body, RECIPIENT_PATHS, [Str(grant.recipientNpub)], RecipientTexts(body), {Str(grant.recipientNpub)});
  }

  // ----- access -----

  /** A 2xx answer that fits the grant and marks access. */
  predicate SaysYes(response: Response, grant: Grant) {
    response.Answer? && 200 <= response.status <= 299 && Fits(response.body, grant) && MarksAccess(response.body)
  }

  /** Tower has no such endpoint. */
  predicate IsLacking(response: Response) {
    response.Answer? && response.status in {404, 405, 501}
  }

  /** The grant's `/me` is not asked, or answers neither with success nor with a denial. */
  predicate SaysNothing(me: Option<Response>) {
    me.Some? ==>
      me.value.Answer? && !(200 <= me.value.status <= 299) && me.value.status !in {403, 404, 410}
  }

  function ListedRows(body: Json): seq<Json> {
    if Get(body, Key.Workspaces).Arr? then Get(body, Key.Workspaces).items
    else if Get(body, Key.Groups).Arr? then Get(body, Key.Groups).items
    else []
  }

  /** The row states this value, which is no object. */
  predicate States(row: Json, key: Key, value: Json) {
    Get(row, key) == value && !value.Obj? && !value.Arr?
  }

  /** A 2xx listing with a row that fits the grant and states its owner or one of its services. */
  predicate Lists(response: Response, grant: Grant) {
    && response.Answer? && 200 <= response.status <= 299
    && exists row <- ListedRows(response.body) ::
         && (row.Obj? || row.Arr?) && Fits(row, grant)
         && (States(row, Key.WorkspaceOwnerNpub, grant.workspaceOwnerNpub) ||
             States(row, Key.OwnerNpub, grant.workspaceOwnerNpub) ||
             States(row, Key.WorkspaceServiceNpub, grant.workspaceServiceNpub) ||
             (Truthy(grant.serviceNpub) && States(row, Key.ServiceNpub, grant.serviceNpub)))
  }

  /** The first listing that lists the grant, all before it having been answered, and its body. */
  ghost predicate IsFirstListing(listings: seq<Response>, grant: Grant, i: nat, body: Json) {
    && i < |listings| && Lists(listings[i], grant) && listings[i] == Answer(listings[i].status, body)
    && forall j | 0 <= j < i :: listings[j].Answer? && !Lists(listings[j], grant)
  }

  ghost predicate FirstLists(listings: seq<Response>, grant: Grant, body: Json) {
    exists i: nat :: IsFirstListing(listings, grant, i, body)
  }

  ghost predicate GivesAccess(grant: Grant, tower: Tower, body: Json) {
    || (SaysYes(tower.verify, grant) && body == tower.verify.body)
    || (IsLacking(tower.verify) && tower.grantMe.Some? && SaysYes(tower.grantMe.value, grant) &&
        body == tower.grantMe.value.body)
    || (IsLacking(tower.verify) && SaysNothing(tower.grantMe) && FirstLists(tower.listings, grant, body))
  }

  lemma MarksAreObjects(body: Json, grant: Grant)
    ensures AllowsAccess(body, grant) <==> Fits(body, grant) && MarksAccess(body)
  {
    IdentityExactly(body, grant);
    hide IdentityMatches, Fits;
  }

  lemma ListsExactly(response: Response, grant: Grant)
    ensures Allows(response, grant) <==> Lists(response, grant)
  {
    forall row ensures IdentityMatches(row, grant) <==> Fits(row, grant) { IdentityExactly(row, grant); }
    hide IdentityMatches, Fits;
    if response.Answer? { assert Rows(response.body) == ListedRows(response.body); }
  }

  lemma ListedAnswers(response: Response, grant: Grant)
    requires Lists(response, grant)
    ensures response.Answer?
  {
  }

  lemma FirstListsHead(listings: seq<Response>, grant: Grant, body: Json)
    requires listings != []
    ensures FirstLists(listings, grant, body) <==>
            if Lists(listings[0], grant) then listings[0] == Answer(listings[0].status, body)
            else listings[0].Answer? && FirstLists(listings[1..], grant, body)
  {
    hide Lists;
    if Lists(listings[0], grant) { ListedAnswers(listings[0], grant); }
    if Lists(listings[0], grant) && listings[0] == Answer(listings[0].status, body) {
      assert IsFirstListing(listings, grant, 0, body);
    }
    if listings[0].Answer? && !Lists(listings[0], grant) {
      if i: nat :| IsFirstListing(listings[1..], grant, i, body) {
        assert IsFirstListing(listings, grant, i + 1, body);
      }
    }
    if i: nat :| IsFirstListing(listings, grant, i, body) {
      if i > 0 { assert IsFirstListing(listings[1..], grant, i - 1, body); }
    }
  }

  lemma {:induction false} FirstListing(grant: Grant, listings: seq<Response>, body: Json)
    ensures AccessByListing(grant, listings) == Some(body) <==> FirstLists(listings, grant, body)
    decreases |listings|
  {
    hide Allows, Lists, FirstLists;
    if listings == [] {
      NothingListed(grant, body);
    } else {
      ListsExactly(listings[0], grant);
      FirstListsHead(listings, grant, body);
      FirstListing(grant, listings[1..], body);
      if Lists(listings[0], grant) { ListedAnswers(listings[0], grant); }
    }
  }

  lemma NothingListed(grant: Grant, body: Json)
    ensures !FirstLists([], grant, body)
  {
  }

  lemma AnswerExactly(grant: Grant, response: Response, body: Json)
    ensures AccessByAnswer(grant, response) == Some(body) <==> SaysYes(response, grant) && body == response.body
  {
    if response.Answer? { MarksAreObjects(response.body, grant); }
    hide AllowsAccess, Fits, MarksAccess;
  }

  lemma FallsBackExactly(tower: Tower)
    ensures FallsBack(tower) <==> IsLacking(tower.verify) && SaysNothing(tower.grantMe)
  {
  }

  /** Access is given exactly by the answers that give it. */
  lemma AccessExactly(grant: Grant, tower: Tower, body: Json)
    ensures Access(grant, tower) == Some(body) <==> GivesAccess(grant, tower, body)
  {
    FirstListing(grant, tower.listings, body);
    FallsBackExactly(tower);
    AnswerExactly(grant, tower.verify, body);
    if tower.grantMe.Some? { AnswerExactly(grant, tower.grantMe.value, body); }
    assert SaysYes(tower.verify, grant) ==> !IsLacking(tower.verify);
    assert tower.grantMe.Some? && SaysYes(tower.grantMe.value, grant) ==> !SaysNothing(tower.grantMe);
    hide SaysYes, AccessByAnswer, AccessByListing, FirstLists, FallsBack, SaysNothing;
  }

  /** A success of the verify endpoint without any of the marks gives no access. */
  lemma UnmarkedGivesNone(grant: Grant, tower: Tower)
    requires tower.verify.Answer? && 200 <= tower.verify.status <= 299 && !MarksAccess(tower.verify.body)
    ensures Access(grant, tower) == None
  {
    if Access(grant, tower).Some? {
      AccessExactly(grant, tower, Access(grant, tower).value);
    }
  }

  /** A success that fits the grant gives access with any one of the marks added to it. */
  lemma MarkedGivesAccess(grant: Grant, tower: Tower, status: int, body: Json, key: Key, mark: Json)
    requires body.Obj? && Fits(body, grant) && 200 <= status <= 299
    requires (key in {Key.Allowed, Key.Active, Key.Verified, Key.CurrentMember} && mark == Bool(true)) ||
             (key == Key.Membership && (mark.Obj? || mark.Arr?))
    requires tower.verify == Answer(status, Set(body, key, mark))
    ensures Access(grant, tower) == Some(Set(body, key, mark))
  {
    FitsKept(body, key, mark, grant);
    assert MarksAccess(Set(body, key, mark));
    hide Fits, MarksAccess, Set;
    AccessExactly(grant, tower, tower.verify.body);
  }

  predicate IsAccessMark(key: Key) {
    key.Allowed? || key.Active? || key.Verified? || key.CurrentMember? || key.Membership?
  }

  ghost predicate Alike(body: Json, other: Json) {
    forall key | !IsAccessMark(key) :: Get(other, key) == Get(body, key)
  }

  lemma NamesAlike(body: Json, other: Json)
    requires Alike(body, other)
    ensures Get(other, Key.Workspace) == Get(body, Key.Workspace) && Get(other, Key.Identity) == Get(body, Key.Identity)
    ensures Described(other) == Described(body)
    ensures WorkspaceServiceTexts(other) == WorkspaceServiceTexts(body) && AppTexts(other) == AppTexts(body)
  {
    hide Get;
  }

  lemma OwnersAlike(body: Json, other: Json)
    requires Alike(body, other)
    ensures OwnerTexts(other) == OwnerTexts(body) && WorkspaceIdTexts(other) == WorkspaceIdTexts(body)
  {
    NamesAlike(body, other);
    hide Get, Described, WorkspaceServiceTexts, AppTexts;
  }

  lemma TowersAlike(body: Json, other: Json)
    requires Alike(body, other)
    ensures TowerTexts(other) == TowerTexts(body) && RecipientTexts(other) == RecipientTexts(body)
  {
    NamesAlike(body, other);
    hide Get, Described, WorkspaceServiceTexts, AppTexts;
  }

  lemma FitsAlike(body: Json, other: Json, grant: Grant)
    requires Alike(body, other)
    ensures Fits(other, grant) == Fits(body, grant)
  {
    NamesAlike(body, other);
    OwnersAlike(body, other);
    TowersAlike(body, other);
    hide Get, Alike, SaysOnly, TowerTexts, WorkspaceServiceTexts, OwnerTexts, WorkspaceIdTexts, AppTexts,
        RecipientTexts;
  }

  lemma FitsKept(body: Json, key: Key, mark: Json, grant: Grant)
    requires body.Obj? && IsAccessMark(key)
    ensures Fits(Set(body, key, mark), grant) == Fits(body, grant)
  {
    forall other | !IsAccessMark(other) ensures Get(Set(body, key, mark), other) == Get(body, other) {
      GetSet(body, key, mark, other);
    }
    FitsAlike(body, Set(body, key, mark), grant);
  }

  // ----- revocation -----

  /** What a success of one of the endpoints about this grant says, if anything. */
  function Reading(body: Json, grant: Grant): Option<Verification> {
    if Fits(body, grant) && MarksAccess(body) then Some(Verification(false, AccessActive, body))
    else if MarksDeletion(body) then Some(Verification(true, WorkspaceDeleted, body))
    else if MarksLoss(body) then Some(Verification(true, MembershipRevoked, body))
    else None
  }

  /** A `/me` that leaves the matter open. */
  predicate LeavesOpen(me: Response, grant: Grant) {
    && me.Answer? && me.status !in {403, 404, 410}
    && (200 <= me.status <= 299 ==> Reading(me.body, grant).None?)
  }

  lemma FirstTextHead(value: Json, rest: seq<Json>)
    ensures FirstText([value] + rest) == if GetString(value).Some? then GetString(value).value else FirstText(rest)
  {
    hide GetString;
    assert ([value] + rest)[1..] == rest;
  }

  lemma TextsRead(body: Json)
    ensures StatusText(body) == (if StatusOf(body).Some? then StatusOf(body).value else "")
    ensures ReasonText(body) == (if ReasonOf(body).Some? then ReasonOf(body).value else "")
  {
    hide GetString, Get;
    assert FirstText([]) == "";
    hide FirstText;
    var status, state := Get(body, Key.Status), Get(body, Key.State);
    FirstTextHead(state, []);
    FirstTextHead(status, [state]);
    assert [status, state] == [status] + [state] && [state] == [state] + [];
    var reason, detail, code := Get(body, Key.Reason), Get(body, Key.DetailCode), Get(body, Key.Code);
    FirstTextHead(code, []);
    FirstTextHead(detail, [code]);
    FirstTextHead(reason, [detail, code]);
    assert [code] == [code] + [] && [detail, code] == [detail] + [code];
    assert [reason, detail, code] == [reason] + [detail, code];
  }

  lemma DeletionRead(body: Json)
    ensures MarksDeletion(body) <==>
            IsMarked(body, DELETION_MARKS, true) || SaysDeleted(StatusOf(body), ReasonOf(body))
  {
    TextsRead(body);
    hide StatusOf, ReasonOf, StatusText, ReasonText, Get;
    assert Key.Deleted in DELETION_MARKS && Key.Tombstoned in DELETION_MARKS;
  }

  lemma LossRead(body: Json)
    ensures MarksLoss(body) <==>
            IsMarked(body, MEMBERSHIP_MARKS, false) || SaysRevoked(StatusOf(body), ReasonOf(body))
  {
    TextsRead(body);
    hide StatusOf, ReasonOf, StatusText, ReasonText, Get;
    assert Key.Allowed in MEMBERSHIP_MARKS && Key.Active in MEMBERSHIP_MARKS && Key.Verified in MEMBERSHIP_MARKS;
    assert Key.CurrentMember in MEMBERSHIP_MARKS && Key.Member in MEMBERSHIP_MARKS;
  }

  lemma NoObjectSaysNothing(body: Json)
    requires !body.Obj?
    ensures !MarksDeletion(body) && !MarksLoss(body)
  {
    TextsRead(body);
    hide StatusText, ReasonText;
  }

  lemma MarksRead(body: Json)
    ensures ConfirmsRevocation(body) ==
            if MarksDeletion(body) then Some(WorkspaceDeleted)
            else if MarksLoss(body) then Some(MembershipRevoked)
            else None
  {
    DeletionRead(body);
    LossRead(body);
    if !body.Obj? { NoObjectSaysNothing(body); }
    hide StatusOf, ReasonOf, StatusText, ReasonText, IsMarked, MarksDeletion, MarksLoss;
  }

  /** A success of an endpoint about this grant is read for access first, then for deletion, then for loss. */
  lemma SuccessReads(grant: Grant, status: int, body: Json, checked: seq<Json>)
    requires 200 <= status <= 299
    ensures AskMe(grant, Some(Answer(status, body)), checked) ==
            if Reading(body, grant).Some? then Decided(Reading(body, grant).value) else Undecided(checked + [body])
    ensures AskVerify(grant, Answer(status, body)) ==
            Decided(if Reading(body, grant).Some? then Reading(body, grant).value
                    else Verification(false, Unconfirmed, body))
  {
    MarksRead(body);
    MarksAreObjects(body, grant);
    hide ConfirmsRevocation, AllowsAccess, Fits, MarksAccess, MarksDeletion, MarksLoss;
  }

  // ----- what each answer makes of a revocation -----

  /** The verify endpoint, unless it is lacking, decides alone. */
  lemma VerifyDecides(grant: Grant, tower: Tower)
    ensures tower.verify.Unreachable? ==> Revocation(grant, tower) == None
    ensures tower.verify.Answer? && 200 <= tower.verify.status <= 299 ==>
              var body := tower.verify.body;
              Revocation(grant, tower) ==
              Some(if Reading(body, grant).Some? then Reading(body, grant).value
                   else Verification(false, Unconfirmed, body))
    ensures tower.verify.Answer? && tower.verify.status == 410 ==>
              Revocation(grant, tower) == Some(Verification(true, WorkspaceDeleted, Undefined))
    ensures tower.verify.Answer? && tower.verify.status == 403 ==>
              Revocation(grant, tower) == Some(Verification(true, AccessDenied, Undefined))
    ensures tower.verify.Answer? && !(200 <= tower.verify.status <= 299) &&
            tower.verify.status !in {403, 404, 405, 410, 501} ==>
              Revocation(grant, tower) == Some(Verification(false, Unconfirmed, Undefined))
  {
    if tower.verify.Answer? && 200 <= tower.verify.status <= 299 {
      SuccessReads(grant, tower.verify.status, tower.verify.body, []);
    }
    hide ConfirmsRevocation, AllowsAccess, Reading, AfterVerify;
  }

  /** Access that the verify endpoint denies by a mark is a revocation confirmed by it. */
  lemma LossMarkRevokes(grant: Grant, tower: Tower)
    requires tower.verify.Answer? && 200 <= tower.verify.status <= 299 && !MarksAccess(tower.verify.body)
    requires !MarksDeletion(tower.verify.body) && MarksLoss(tower.verify.body)
    ensures Access(grant, tower) == None
    ensures Revocation(grant, tower) == Some(Verification(true, MembershipRevoked, tower.verify.body))
  {
    UnmarkedGivesNone(grant, tower);
    VerifyDecides(grant, tower);
    hide MarksAccess, MarksDeletion, MarksLoss, Access, Revocation;
  }

  /** What a `/me` that does not leave the matter open says. */
  function MeSays(me: Response, grant: Grant): Option<Verification>
    requires !LeavesOpen(me, grant)
  {
    if me.Unreachable? then None
    else if 200 <= me.status <= 299 then Reading(me.body, grant)
    else
      var result := if me.status == 404 then WorkspaceNotFound else if me.status == 410 then WorkspaceDeleted
                    else AccessDenied;
      Some(Verification(true, result, Undefined))
  }

  lemma MeReads(grant: Grant, me: Response, checked: seq<Json>)
    ensures AskMe(grant, Some(me), checked) ==
            if LeavesOpen(me, grant) then
              Undecided(checked + if 200 <= me.status <= 299 then [me.body] else [])
            else if MeSays(me, grant).Some? then Decided(MeSays(me, grant).value)
            else Threw
  {
    if me.Answer? && 200 <= me.status <= 299 { SuccessReads(grant, me.status, me.body, checked); }
    hide ConfirmsRevocation, AllowsAccess, Reading;
    if me.Answer? && !(200 <= me.status <= 299) { assert checked + [] == checked; }
  }

  /** Without a verify endpoint, the first `/me` that is asked and does not leave the matter open decides. */
  lemma MeDecides(grant: Grant, tower: Tower)
    requires IsLacking(tower.verify)
    ensures tower.grantMe.Some? && !LeavesOpen(tower.grantMe.value, grant) ==>
              Revocation(grant, tower) == MeSays(tower.grantMe.value, grant)
    ensures (tower.grantMe.Some? ==> LeavesOpen(tower.grantMe.value, grant)) && GrantWorkspaceId(grant).Some? &&
            !LeavesOpen(tower.workspaceMe, grant) ==>
              Revocation(grant, tower) == MeSays(tower.workspaceMe, grant)
  {
    if tower.grantMe.Some? { MeReads(grant, tower.grantMe.value, []); }
    var checked := if tower.grantMe.Some? && LeavesOpen(tower.grantMe.value, grant) then
                     AskMe(grant, tower.grantMe, []).checked else [];
    MeReads(grant, tower.workspaceMe, checked);
    hide LeavesOpen, MeSays, GrantWorkspaceId, AskListings;
    assert AskVerify(grant, tower.verify) == Undecided([]);
    if tower.grantMe.Some? {
      assert AskMe(grant, Some(tower.grantMe.value), []) == AskMe(grant, tower.grantMe, []);
    }
    hide AskMe, AskVerify;
  }

  /** The bodies of the successes, in order. */
  function Successes(responses: seq<Response>): seq<Json> {
    if responses == [] then []
    else if responses[0].Answer? && 200 <= responses[0].status <= 299 then
      [responses[0].body] + Successes(responses[1..])
    else Successes(responses[1..])
  }

  lemma ListsRead(response: Response, grant: Grant)
    ensures Lists(response, grant) <==>
            response.Answer? && 200 <= response.status <= 299 && ListingAllows(response.body, grant)
  {
    ListsExactly(response, grant);
    hide Lists, ListingAllows;
  }

  /** All listings were answered and none lists the grant. */
  ghost predicate NoneLists(listings: seq<Response>, grant: Grant) {
    forall r <- listings :: r.Answer? && !Lists(r, grant)
  }

  lemma NoneListsHead(listings: seq<Response>, grant: Grant)
    requires listings != []
    ensures NoneLists(listings, grant) <==>
            listings[0].Answer? && !Lists(listings[0], grant) && NoneLists(listings[1..], grant)
  {
    hide Lists;
    assert forall r <- listings :: r == listings[0] || r in listings[1..];
  }

  lemma {:induction false} ListingsRead(grant: Grant, listings: seq<Response>, saw: bool, checked: seq<Json>)
    ensures AskListings(grant, listings, saw, checked) ==
            if AccessByListing(grant, listings).Some? then
              Some(Verification(false, AccessActive, AccessByListing(grant, listings).value))
            else if !NoneLists(listings, grant) then None
            else if saw || Successes(listings) != [] then
              Some(Verification(true, WorkspaceNotFound, Arr(checked + Successes(listings))))
            else Some(Verification(false, Unconfirmed, Arr(checked)))
    decreases |listings|
  {
    hide NoneLists, Lists, ListingAllows;
    if listings == [] {
      NoneListsNothing(grant);
      assert checked + [] == checked;
    } else {
      var head, rest := listings[0], listings[1..];
      ListsRead(head, grant);
      NoneListsHead(listings, grant);
      if head.Answer? && !Lists(head, grant) {
        var ok := 200 <= head.status <= 299;
        ListingsRead(grant, rest, saw || ok, if ok then checked + [head.body] else checked);
        assert ok ==> checked + [head.body] + Successes(rest) == checked + ([head.body] + Successes(rest));
      }
    }
  }

  lemma NoneListsNothing(grant: Grant)
    ensures NoneLists([], grant)
  {
  }

  /** The bodies of the `/me` answers that were asked for and succeeded. */
  function MeBodies(grant: Grant, tower: Tower): seq<Json> {
    Successes((if tower.grantMe.Some? then [tower.grantMe.value] else []) +
              (if GrantWorkspaceId(grant).Some? then [tower.workspaceMe] else []))
  }

  /** Where the verify endpoint is lacking and every `/me` leaves the matter open, the listings decide. */
  lemma ListingsDecide(grant: Grant, tower: Tower)
    requires IsLacking(tower.verify) && (tower.grantMe.Some? ==> LeavesOpen(tower.grantMe.value, grant))
    requires GrantWorkspaceId(grant).Some? ==> LeavesOpen(tower.workspaceMe, grant)
    ensures forall body | FirstLists(tower.listings, grant, body) ::
              Revocation(grant, tower) == Some(Verification(false, AccessActive, body))
    ensures NoneLists(tower.listings, grant) ==>
              var listed := Successes(tower.listings);
              Revocation(grant, tower) ==
              Some(if listed != [] then Verification(true, WorkspaceNotFound, Arr(MeBodies(grant, tower) + listed))
                   else Verification(false, Unconfirmed, Arr(MeBodies(grant, tower))))
    ensures !NoneLists(tower.listings, grant) && (forall body :: !FirstLists(tower.listings, grant, body)) ==>
              Revocation(grant, tower) == None
  {
    MesRead(grant, tower);
    ListingsRead(grant, tower.listings, false, MeBodies(grant, tower));
    hide NoneLists, FirstLists, Lists, AskListings, AccessByListing, MeBodies, Revocation;
    forall body
      ensures AccessByListing(grant, tower.listings) == Some(body) <==> FirstLists(tower.listings, grant, body)
    {
      FirstListing(grant, tower.listings, body);
    }
    if AccessByListing(grant, tower.listings).Some? {
      assert FirstLists(tower.listings, grant, AccessByListing(grant, tower.listings).value);
      SomeListsNotNone(tower.listings, grant, AccessByListing(grant, tower.listings).value);
    }
  }

  lemma SomeListsNotNone(listings: seq<Response>, grant: Grant, body: Json)
    requires FirstLists(listings, grant, body)
    ensures !NoneLists(listings, grant)
  {
    var i: nat :| IsFirstListing(listings, grant, i, body);
    assert listings[i] in listings;
  }

  lemma MesRead(grant: Grant, tower: Tower)
    requires IsLacking(tower.verify) && (tower.grantMe.Some? ==> LeavesOpen(tower.grantMe.value, grant))
    requires GrantWorkspaceId(grant).Some? ==> LeavesOpen(tower.workspaceMe, grant)
    ensures Revocation(grant, tower) == AskListings(grant, tower.listings, false, MeBodies(grant, tower))
  {
    var first: seq<Response> := if tower.grantMe.Some? then [tower.grantMe.value] else [];
    var second: seq<Response> := if GrantWorkspaceId(grant).Some? then [tower.workspaceMe] else [];
    if tower.grantMe.Some? { MeReads(grant, tower.grantMe.value, []); }
    MeReads(grant, tower.workspaceMe, Successes(first));
    SuccessesJoin(first, second);
    assert AskVerify(grant, tower.verify) == Undecided([]);
    OneSuccess(tower.workspaceMe);
    if tower.grantMe.Some? {
      OneSuccess(tower.grantMe.value);
      assert [] + Successes(first) == Successes(first);
      assert AskMe(grant, Some(tower.grantMe.value), []) == AskMe(grant, tower.grantMe, []);
    }
    assert Successes(first) + [] == Successes(first);
    hide AskMe, AskVerify, LeavesOpen, AskListings, GrantWorkspaceId;
  }

  lemma OneSuccess(response: Response)
    ensures Successes([response]) ==
            if response.Answer? && 200 <= response.status <= 299 then [response.body] else []
  {
    assert [response][1..] == [];
  }

  lemma SuccessesJoin(a: seq<Response>, b: seq<Response>)
    requires |a| <= 1
    ensures Successes(a + b) == Successes(a) + Successes(b)
  {
    if a == [] {
      assert a + b == b;
    } else {
      assert (a + b)[1..] == b && a[1..] == [];
    }
  }
}

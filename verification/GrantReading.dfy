/**
 What an access-grant event must look like to be read as a grant, told by its tags and by the fields of its payload, and
 which refusal answers one that does not.
 */
module GrantReading {
  import opened AccessGrant
  import opened GrantImport
  import opened Json
  import opened Wrappers

  // ----- text -----

  predicate AllSpace(s: string) {
    forall c <- s :: IsSpace(c)
  }

  lemma {:induction false} TrimStartExactly(s: string) returns (before: string)
    ensures s == before + TrimStart(s) && AllSpace(before)
  {
    before := "";
    if s != "" && IsSpace(s[0]) {
      before := TrimStartExactly(s[1..]);
      hide IsSpace;
      assert s == [s[0]] + (before + TrimStart(s));
      before := [s[0]] + before;
    }
  }

  lemma {:induction false} TrimEndExactly(s: string) returns (after: string)
    ensures s == TrimEnd(s) + after && AllSpace(after)
  {
    after := "";
    if s != "" && IsSpace(s[|s| - 1]) {
      after := TrimEndExactly(s[..|s| - 1]);
      hide IsSpace;
      assert s == (TrimEnd(s) + after) + [s[|s| - 1]];
      after := after + [s[|s| - 1]];
    }
  }

  /** Trimming takes white space off both ends, and all of it. */
  lemma TrimExactly(s: string) returns (before: string, after: string)
    ensures s == before + Trim(s) + after && AllSpace(before) && AllSpace(after) && Trimmed(Trim(s))
  {
    before := TrimStartExactly(s);
    after := TrimEndExactly(TrimStart(s));
    hide IsSpace, TrimStart, TrimEnd;
    assert before + (Trim(s) + after) == before + Trim(s) + after;
  }

  lemma {:induction false} StartIsTrimmed(before: string, text: string)
    requires AllSpace(before) && text != "" && !IsSpace(text[0])
    ensures TrimStart(before + text) == text
  {
    hide IsSpace;
    if before == "" {
      assert before + text == text;
    } else {
      assert before[0] in before && (before + text)[1..] == before[1..] + text;
      StartIsTrimmed(before[1..], text);
    }
  }

  lemma {:induction false} EndIsTrimmed(text: string, after: string)
    requires AllSpace(after) && text != "" && !IsSpace(text[|text| - 1])
    ensures TrimEnd(text + after) == text
  {
    hide IsSpace;
    if after == "" {
      assert text + after == text;
    } else {
      var n := |after| - 1;
      assert after[n] in after && (text + after)[..|text + after| - 1] == text + after[..n];
      EndIsTrimmed(text, after[..n]);
    }
  }

  /** The text with white space around it. */
  ghost predicate IsPadded(s: string, text: string) {
    exists before: string, after: string :: AllSpace(before) && AllSpace(after) && s == before + text + after
  }

  /** What a value says as a text: what is left between white space, if anything. */
  lemma TextExactly(v: Json, text: string)
    ensures GetString(v) == Some(text) <==> v.Str? && text != "" && Trimmed(text) && IsPadded(v.s, text)
  {
    hide IsSpace, TrimStart, TrimEnd;
    if v.Str? {
      var before, after := TrimExactly(v.s);
      assert IsPadded(v.s, Trim(v.s));
      if text != "" && Trimmed(text) && IsPadded(v.s, text) {
        var b: string, a: string :| AllSpace(b) && AllSpace(a) && v.s == b + text + a;
        assert v.s == b + (text + a);
        StartIsTrimmed(b, text + a);
        EndIsTrimmed(text, a);
      }
    }
  }

  // ----- tags -----

  predicate HasName(tag: seq<string>, name: string) {
    |tag| > 0 && tag[0] == name
  }

  /** A `p` tag marked as the recipient's. */
  predicate IsMarkedRecipient(tag: seq<string>) {
    |tag| > 3 && tag[0] == "p" && tag[3] == "recipient"
  }

  /** The first tag of that name. */
  ghost predicate IsFirstNamed(tags: seq<seq<string>>, name: string, i: nat) {
    i < |tags| && HasName(tags[i], name) && forall j | 0 <= j < i :: !HasName(tags[j], name)
  }

  ghost predicate IsFirstMarked(tags: seq<seq<string>>, i: nat) {
    i < |tags| && IsMarkedRecipient(tags[i]) && forall j | 0 <= j < i :: !IsMarkedRecipient(tags[j])
  }

  /** What the first tag of that name says, unless it is blank or says nothing. */
  ghost predicate TagSays(event: Event, name: string, text: string) {
    exists i: nat :: IsFirstNamed(event.tags, name, i) && |event.tags[i]| > 1 &&
      text == Trim(event.tags[i][1]) && text != ""
  }

  /** The key the event is tagged for: the first marked `p` tag's, blank or not, else the first `p` tag's. */
  ghost predicate TaggedFor(event: Event, key: string) {
    (exists i: nat :: IsFirstMarked(event.tags, i) && key == Trim(event.tags[i][1])) ||
    ((forall tag <- event.tags :: !IsMarkedRecipient(tag)) && TagSays(event, "p", key))
  }

  ghost predicate IsFound(tags: seq<seq<string>>, matches: seq<string> -> bool, i: nat) {
    && i < |tags| && matches(tags[i]) && (forall j | 0 <= j < i :: !matches(tags[j]))
    && FindTag(tags, matches) == if |tags[i]| > 1 then Some(Trim(tags[i][1])) else None
  }

  /** What is found is the second field of the first tag that satisfies the test. */
  ghost predicate Finds(tags: seq<seq<string>>, matches: seq<string> -> bool) {
    (FindTag(tags, matches).None? && forall tag <- tags :: !matches(tag)) ||
    exists i: nat :: IsFound(tags, matches, i)
  }

  lemma {:induction false} FindTagExactly(tags: seq<seq<string>>, matches: seq<string> -> bool)
    ensures Finds(tags, matches)
  {
    hide Trim;
    if tags != [] {
      if matches(tags[0]) {
        assert IsFound(tags, matches, 0);
      } else {
        FindTagExactly(tags[1..], matches);
        var rest := tags[1..];
        assert FindTag(tags, matches) == FindTag(rest, matches);
        if i: nat :| IsFound(rest, matches, i) {
          assert tags[i + 1] == rest[i] && forall j | 0 <= j < i + 1 :: j == 0 || tags[j] == rest[j - 1];
          assert IsFound(tags, matches, i + 1);
        } else {
          assert forall tag <- tags :: tag == tags[0] || tag in rest;
        }
      }
    }
  }

  lemma OptionalTagExactly(event: Event, name: string, text: string)
    ensures OptionalTag(event, name) == Some(text) <==> TagSays(event, name, text)
  {
    hide Trim;
    FindTagExactly(event.tags, Named(name));
    FirstIsUnique(event.tags, name);
    assert forall tag :: Named(name)(tag) == HasName(tag, name);
    if i: nat :| IsFound(event.tags, Named(name), i) { assert IsFirstNamed(event.tags, name, i); }
  }

  lemma FirstIsUnique(tags: seq<seq<string>>, name: string)
    ensures forall i: nat, j: nat | IsFirstNamed(tags, name, i) && IsFirstNamed(tags, name, j) :: i == j
    ensures forall i: nat, j: nat | IsFirstMarked(tags, i) && IsFirstMarked(tags, j) :: i == j
  {
    forall i: nat, j: nat | IsFirstNamed(tags, name, i) && IsFirstNamed(tags, name, j) ensures i == j {
      assert !(i < j) && !(j < i);
    }
    forall i: nat, j: nat | IsFirstMarked(tags, i) && IsFirstMarked(tags, j) ensures i == j {
      assert !(i < j) && !(j < i);
    }
  }

  lemma TaggedExactly(event: Event, key: string)
    ensures TaggedRecipient(event) == Ok(key) <==> TaggedFor(event, key)
    ensures TaggedRecipient(event).Err? ==> TaggedRecipient(event) == Err("missing_tag_p")
  {
    forall text ensures OptionalTag(event, "p") == Some(text) <==> TagSays(event, "p", text) {
      OptionalTagExactly(event, "p", text);
    }
    FindTagExactly(event.tags, Marked());
    FirstIsUnique(event.tags, "p");
    assert forall tag :: Marked()(tag) == IsMarkedRecipient(tag);
    if i: nat :| IsFound(event.tags, Marked(), i) { assert IsFirstMarked(event.tags, i); }
    hide Trim, OptionalTag, TagSays;
  }

  // ----- the envelope -----

  /** The event is a signed grant event for this reader. */
  ghost predicate IsAddressed(lib: Library, event: Event, recipientNpub: string, signer: string) {
    && event.kind == 33357 && event.signatureValid && lib.npubOf(event.pubkey) == Some(signer) && signer != ""
    && lib.hexOf(recipientNpub).Some?
    && exists key :: TaggedFor(event, key) && lib.lower(key) == lib.lower(lib.hexOf(recipientNpub).value)
  }

  lemma EnvelopeExactly(lib: Library, event: Event, recipientNpub: string, signer: string)
    ensures CheckEnvelope(lib, event, recipientNpub) == Ok(signer) <==> IsAddressed(lib, event, recipientNpub, signer)
  {
    forall key ensures TaggedRecipient(event) == Ok(key) <==> TaggedFor(event, key) { TaggedExactly(event, key); }
    hide TaggedFor, TaggedRecipient;
    if TaggedRecipient(event).Ok? { assert TaggedFor(event, TaggedRecipient(event).value); }
  }

  /** What is refused before decryption, and how. */
  lemma EnvelopeRefusals(lib: Library, event: Event, recipientNpub: string)
    ensures var r, signer := CheckEnvelope(lib, event, recipientNpub), lib.npubOf(event.pubkey);
            && (event.kind != 33357 ==> r == Err("wrong_kind"))
            && (event.kind == 33357 && !event.signatureValid ==> r == Err("signature_invalid"))
            && (event.kind == 33357 && event.signatureValid && lib.hexOf(recipientNpub).None? ==>
                  r == Err("invalid_npub"))
            && (event.kind == 33357 && event.signatureValid && lib.hexOf(recipientNpub).Some? ==>
                  && (signer.None? || signer.value == "" ==> r == Err("signature_invalid"))
                  && (signer.Some? && signer.value != "" && (forall key :: !TaggedFor(event, key)) ==>
                        r == Err("missing_tag_p"))
                  && forall key | signer.Some? && signer.value != "" && TaggedFor(event, key) &&
                                  lib.lower(key) != lib.lower(lib.hexOf(recipientNpub).value) ::
                       r == Err("wrong_recipient"))
  {
    forall key ensures TaggedRecipient(event) == Ok(key) <==> TaggedFor(event, key) { TaggedExactly(event, key); }
    TaggedExactly(event, "");
    hide TaggedFor, TaggedRecipient;
    if TaggedRecipient(event).Ok? { assert TaggedFor(event, TaggedRecipient(event).value); }
  }

  // ----- the payload -----

  predicate IsGiven(v: Json) {
    !v.Undefined? && !v.Null?
  }

  /** The first value that is given, else the last one. */
  function FirstGiven(a: Json, b: Json): Json {
    if IsGiven(a) then a else b
  }

  function Action(parsed: Json): string {
    var action, status := GetString(Get(parsed, Key.Action)), GetString(Get(parsed, Key.Status));
    if action in {Some("grant"), Some("revoked"), Some("deleted")} then action.value
    else if status in {Some("revoked"), Some("deleted")} then status.value
    else "grant"
  }

  function Status(parsed: Json): string {
    var status := GetString(Get(parsed, Key.Status));
    if status in {Some("active"), Some("revoked"), Some("deleted"), Some("superseded")} then status.value
    else if Action(parsed) == "grant" then "active"
    else Action(parsed)
  }

  /** The package, under either of its names. */
  function Package(parsed: Json): Json {
    var package, alias := Get(parsed, Key.AgentConnectPackage), Get(parsed, Key.AgentConnect);
    if !package.Obj? && alias.Obj? then alias else package
  }

  /** The app's npub, stated or encoded from its key. */
  function AppNpub(lib: Library, parsed: Json): Json {
    var stated, pubkey := Get(Get(parsed, Key.App), Key.AppNpub), Get(Get(parsed, Key.App), Key.AppPubkey);
    if IsGiven(stated) then stated
    else if pubkey.Str? && lib.npubOf(pubkey.s).Some? then Str(lib.npubOf(pubkey.s).value)
    else Null
  }

  function Recipient(parsed: Json): Json {
    FirstGiven(Get(Get(parsed, Key.Recipient), Key.Npub), Get(parsed, Key.RecipientNpub))
  }

  function Issuer(parsed: Json): Json {
    FirstGiven(Get(Get(parsed, Key.Issuer), Key.Npub), Get(parsed, Key.IssuedByNpub))
  }

  predicate IsOfKind(parsed: Json) {
    && parsed.Obj?
    && (GetString(Get(parsed, Key.Kind)) == Some("wingman_flightdeck_access_grant") ||
        GetString(Get(parsed, Key.Type)) == Some("flightdeck_onboarding"))
    && (Truthy(Get(parsed, Key.Protocol)) ==> Get(parsed, Key.Protocol) == Str("onboarding"))
    && (Truthy(Get(Get(parsed, Key.App), Key.Namespace)) ==>
          Get(Get(parsed, Key.App), Key.Namespace) in {Str("wingman-flight-deck"), Str("flightdeck_pg")})
  }

  /** It names app, parties, time, service and workspace. */
  predicate HasParts(lib: Library, parsed: Json) {
    && Truthy(AppNpub(lib, parsed)) && Truthy(Recipient(parsed)) && Truthy(Issuer(parsed))
    && Truthy(Get(parsed, Key.IssuedAt)) && lib.dateMs(Get(parsed, Key.IssuedAt)).Some?
    && (forall key <- {Key.DirectHttpsUrl, Key.ServiceNpub} :: Truthy(Get(Get(parsed, Key.Service), key)))
    && (forall key <- {Key.OwnerNpub, Key.WorkspaceServiceNpub} :: Truthy(Get(Get(parsed, Key.Workspace), key)))
  }

  /** The payload is a grant, revocation or deletion with everything that one needs. */
  predicate IsPayload(lib: Library, parsed: Json) {
    IsOfKind(parsed) && HasParts(lib, parsed) && (Action(parsed) == "grant" ==> Truthy(Package(parsed)))
  }

  lemma ActionReads(parsed: Json)
    ensures NormalAction(parsed) == Action(parsed)
  {
    hide GetString, Get;
  }

  lemma StatusReads(parsed: Json)
    ensures NormalStatus(parsed) == Status(parsed)
  {
    ActionReads(parsed);
    hide GetString, Get, NormalAction, Action;
  }

  lemma AppReads(lib: Library, parsed: Json)
    ensures Truthy(AppNpub(lib, parsed)) ==> EncodedApp(lib, AppOf(parsed)) == Ok(AppNpub(lib, parsed))
    ensures EncodedApp(lib, AppOf(parsed)).Ok? ==> EncodedApp(lib, AppOf(parsed)).value == AppNpub(lib, parsed)
  {
  }

  lemma PackageReads(parsed: Json)
    requires parsed.Obj?
    ensures PackageOf(WithPackage(WithAction(parsed))) == Package(parsed)
  {
    hide NormalAction, NormalStatus;
  }

  lemma PartiesRead(parsed: Json)
    requires parsed.Obj?
    ensures var payload := WithPackage(WithAction(parsed));
            && RecipientOf(payload) == Recipient(parsed) && IssuerOf(payload) == Issuer(parsed)
            && Get(payload, Key.IssuedAt) == Get(parsed, Key.IssuedAt)
            && ServiceOf(payload) == Get(parsed, Key.Service) && WorkspaceOf(payload) == Get(parsed, Key.Workspace)
            && AppOf(payload) == Get(parsed, Key.App)
  {
    NormalisedKeeps(parsed, Key.Recipient);
    NormalisedKeeps(parsed, Key.RecipientNpub);
    NormalisedKeeps(parsed, Key.Issuer);
    NormalisedKeeps(parsed, Key.IssuedByNpub);
    NormalisedKeeps(parsed, Key.IssuedAt);
    NormalisedKeeps(parsed, Key.Service);
    NormalisedKeeps(parsed, Key.Workspace);
    hide WithPackage, WithAction, Get;
  }

  lemma PartsRead(lib: Library, parsed: Json)
    requires parsed.Obj?
    ensures HasRequiredFields(lib, WithPackage(WithAction(parsed)), AppNpub(lib, parsed)) <==> HasParts(lib, parsed)
  {
    PartiesRead(parsed);
    hide WithAction, WithPackage, AppNpub, Recipient, Issuer, RecipientOf, IssuerOf, Get;
    assert Key.DirectHttpsUrl in {Key.DirectHttpsUrl, Key.ServiceNpub};
    assert Key.ServiceNpub in {Key.DirectHttpsUrl, Key.ServiceNpub};
    assert Key.OwnerNpub in {Key.OwnerNpub, Key.WorkspaceServiceNpub};
    assert Key.WorkspaceServiceNpub in {Key.OwnerNpub, Key.WorkspaceServiceNpub};
  }

  lemma KindReads(parsed: Json)
    ensures IsOfKind(parsed) <==>
            && IsAccessGrant(parsed)
            && (!Truthy(Get(parsed, Key.Protocol)) || Get(parsed, Key.Protocol) == Str("onboarding"))
            && (!Truthy(Get(AppOf(parsed), Key.Namespace)) || IsNamespace(Get(AppOf(parsed), Key.Namespace)))
  {
    hide Get, GetString;
  }

  lemma ParseSucceeds(lib: Library, parsed: Json)
    ensures ParsePayload(lib, parsed).Ok? <==>
            && IsAccessGrant(parsed)
            && (!Truthy(Get(parsed, Key.Protocol)) || Get(parsed, Key.Protocol) == Str("onboarding"))
            && EncodedApp(lib, AppOf(parsed)).Ok?
            && var payload := WithPackage(WithAction(parsed));
            && HasRequiredFields(lib, payload, EncodedApp(lib, AppOf(parsed)).value)
            && (NormalAction(parsed) == "grant" ==> Truthy(PackageOf(payload)))
            && (!Truthy(Get(AppOf(parsed), Key.Namespace)) || IsNamespace(Get(AppOf(parsed), Key.Namespace)))
  {
    hide NormalAction, WithAction, WithPackage, EncodedApp, RecipientOf, IssuerOf, PackageOf, Get, GetString, Filled,
        HasRequiredFields, IsNamespace;
  }

  /** A parsed text is taken as a payload exactly if it is one; anything else is refused. */
  lemma ParsesExactly(lib: Library, parsed: Json)
    ensures ParsePayload(lib, parsed).Ok? <==> IsPayload(lib, parsed)
  {
    ParseSucceeds(lib, parsed);
    ActionReads(parsed);
    AppReads(lib, parsed);
    KindReads(parsed);
    if parsed.Obj? {
      PackageReads(parsed);
      PartsRead(lib, parsed);
    }
    hide ParsePayload, NormalAction, Action, WithAction, WithPackage, EncodedApp, AppNpub, Package, Get, HasParts,
        HasRequiredFields, IsNamespace, IsAccessGrant, IsOfKind;
    if HasParts(lib, parsed) { PartsNeedApp(lib, parsed); }
  }

  lemma PartsNeedApp(lib: Library, parsed: Json)
    requires HasParts(lib, parsed)
    ensures Truthy(AppNpub(lib, parsed))
  {
  }

  /** The app has neither an npub nor a key that one could be made from. */
  predicate IsUnreadable(app: Json) {
    !IsGiven(Get(app, Key.AppNpub)) && IsGiven(Get(app, Key.AppPubkey)) && !Get(app, Key.AppPubkey).Str?
  }

  /** What is no payload is refused as one, or as a grant if its app cannot be read at all. */
  lemma ParseRefusals(lib: Library, parsed: Json)
    requires ParsePayload(lib, parsed).Err?
    ensures ParsePayload(lib, parsed).code ==
            if IsAccessGrant(parsed) && IsUnreadable(Get(parsed, Key.App)) &&
               (Truthy(Get(parsed, Key.Protocol)) ==> Get(parsed, Key.Protocol) == Str("onboarding"))
            then "grant_invalid" else "payload_invalid"
  {
    UnreadableApp(lib, AppOf(parsed));
    hide NormalAction, WithAction, WithPackage, EncodedApp, RecipientOf, IssuerOf, PackageOf, Get, GetString, Filled,
        HasRequiredFields, IsNamespace, IsAccessGrant, IsUnreadable;
  }

  lemma UnreadableApp(lib: Library, app: Json)
    ensures EncodedApp(lib, app).Err? <==> IsUnreadable(app)
    ensures EncodedApp(lib, app).Err? ==> EncodedApp(lib, app) == Err("grant_invalid")
  {
  }

  // ----- what parsing fills in -----

  /** A party as it stands, or made from its npub. */
  function Party(stated: Json, npub: Json): Json {
    if IsGiven(stated) then stated else Obj(map[Key.Npub := npub])
  }

  /** The grant id at the top, else the nested one. */
  function StatedGrantId(parsed: Json): Json {
    var top, nested := Get(parsed, Key.GrantId), Get(Get(parsed, Key.Grant), Key.GrantId);
    if !Truthy(top) && Truthy(nested) then nested else top
  }

  lemma WithGrantIdReads(payload: Json)
    requires payload.Obj?
    ensures Get(WithGrantId(payload), Key.GrantId) == StatedGrantId(payload)
  {
  }

  lemma FilledReads(payload: Json, app: Json)
    requires payload.Obj? && AppOf(payload).Obj?
    ensures var filled := Filled(payload, app);
            && Get(filled, Key.GrantId) == StatedGrantId(payload)
            && Get(filled, Key.Recipient) == Party(Get(payload, Key.Recipient), RecipientOf(payload))
            && Get(filled, Key.Issuer) == Party(Get(payload, Key.Issuer), IssuerOf(payload))
            && (forall key :: Get(Get(filled, Key.App), key) ==
                              if key == Key.AppNpub then app else Get(Get(payload, Key.App), key))
  {
    WithGrantIdReads(payload);
    GrantIdKeeps(payload, Key.Recipient);
    GrantIdKeeps(payload, Key.Issuer);
    hide WithGrantId, RecipientOf, IssuerOf, StatedGrantId;
  }

  /** What a payload says once it is parsed: the normalised action and status, and what was left to be filled in. */
  lemma FillsExactly(lib: Library, parsed: Json)
    requires ParsePayload(lib, parsed).Ok?
    ensures var payload := ParsePayload(lib, parsed).value;
            && Get(payload, Key.Action) == Str(Action(parsed)) && Get(payload, Key.Status) == Str(Status(parsed))
            && Get(payload, Key.AgentConnectPackage) == Package(parsed)
            && Get(payload, Key.GrantId) == StatedGrantId(parsed)
            && Get(payload, Key.Recipient) == Party(Get(parsed, Key.Recipient), Recipient(parsed))
            && Get(payload, Key.Issuer) == Party(Get(parsed, Key.Issuer), Issuer(parsed))
            && (forall key :: Get(Get(payload, Key.App), key) ==
                              if key == Key.AppNpub then AppNpub(lib, parsed) else Get(Get(parsed, Key.App), key))
  {
    ParsedIsFilled(lib, parsed);
    ActionReads(parsed);
    StatusReads(parsed);
    AppReads(lib, parsed);
    PackageReads(parsed);
    PartiesRead(parsed);
    var normal, app := WithPackage(WithAction(parsed)), EncodedApp(lib, AppOf(parsed)).value;
    StatedReads(parsed);
    hide ParsePayload, NormalAction, NormalStatus, EncodedApp, Party, WithAction, WithPackage, StatedGrantId, Filled;
    FilledReads(normal, app);
    FilledKeeps(normal, app, Key.Action);
    FilledKeeps(normal, app, Key.Status);
    FilledKeeps(normal, app, Key.AgentConnectPackage);
    NormalisedKeeps(parsed, Key.Recipient);
    NormalisedKeeps(parsed, Key.Issuer);
    NormalisedKeeps(parsed, Key.GrantId);
    NormalisedKeeps(parsed, Key.Grant);
  }

  lemma StatedReads(parsed: Json)
    requires parsed.Obj?
    ensures var normal := WithPackage(WithAction(parsed));
            && Get(normal, Key.Action) == Str(NormalAction(parsed))
            && Get(normal, Key.Status) == Str(NormalStatus(parsed))
            && StatedGrantId(normal) == StatedGrantId(parsed)
  {
    NormalisedKeeps(parsed, Key.GrantId);
    NormalisedKeeps(parsed, Key.Grant);
    hide NormalAction, NormalStatus;
  }

  // ----- tags against payload, and the grant they make -----

  /** A tag and a field that are both given say the same. */
  ghost predicate SaySame(event: Event, tag: string, field: Json) {
    forall text | TagSays(event, tag, text) && Truthy(field) :: field == Str(text)
  }

  /** The tags contradict nothing in the payload, the signer is its issuer and the reader its recipient. */
  ghost predicate TagsFit(event: Event, payload: Json, signer: string, recipientNpub: string) {
    && (forall text | TagSays(event, "app", text) :: text == "wingman-flight-deck")
    && (forall text | TagSays(event, "protocol", text) :: text == "onboarding")
    && SaySame(event, "app_pub", Get(AppOf(payload), Key.AppPubkey))
    && SaySame(event, "app_npub", Get(AppOf(payload), Key.AppNpub))
    && SaySame(event, "service_npub", Get(ServiceOf(payload), Key.ServiceNpub))
    && SaySame(event, "workspace_service_npub", Get(WorkspaceOf(payload), Key.WorkspaceServiceNpub))
    && SaySame(event, "workspace_owner_npub", Get(WorkspaceOf(payload), Key.OwnerNpub))
    && SaySame(event, "d", Get(payload, Key.DedupeKey))
    && SaySame(event, "grant", FirstGiven(Get(payload, Key.GrantId), Get(Get(payload, Key.Grant), Key.GrantId)))
    && SaySame(event, "recipient", Recipient(payload)) && SaySame(event, "issuer", Issuer(payload))
    && Issuer(payload) == Str(signer) && Recipient(payload) == Str(recipientNpub)
  }

  lemma AgreesExactly(event: Event, tag: string, field: Json)
    ensures var read := OptionalTag(event, tag);
            && (Agree(Value(read), field) <==> SaySame(event, tag, field))
            && (Agree(TagOr(read, field), field) <==> SaySame(event, tag, field))
            && (SaySame(event, tag, field) && Truthy(field) ==> TagOr(read, field) == field)
  {
    forall text ensures OptionalTag(event, tag) == Some(text) <==> TagSays(event, tag, text) {
      OptionalTagExactly(event, tag, text);
    }
    hide OptionalTag, TagSays;
    if OptionalTag(event, tag).Some? { assert TagSays(event, tag, OptionalTag(event, tag).value); }
  }

  lemma FixedTag(event: Event, tag: string, expected: string)
    requires expected != ""
    ensures SaySame(event, tag, Str(expected)) <==> forall text | TagSays(event, tag, text) :: text == expected
  {
    hide TagSays;
  }

  /** The cross-checks pass exactly when the tags fit the payload. */
  lemma TagsExactly(event: Event, payload: Json, signer: string, recipientNpub: string)
    requires Truthy(Issuer(payload)) && Truthy(Recipient(payload))
    ensures TagsAgree(ReadTags(event), payload, signer, recipientNpub) <==>
            TagsFit(event, payload, signer, recipientNpub)
  {
    FixedTag(event, "app", "wingman-flight-deck");
    FixedTag(event, "protocol", "onboarding");
    AgreesExactly(event, "app", Str("wingman-flight-deck"));
    AgreesExactly(event, "protocol", Str("onboarding"));
    AgreesExactly(event, "app_pub", Get(AppOf(payload), Key.AppPubkey));
    AgreesExactly(event, "app_npub", Get(AppOf(payload), Key.AppNpub));
    AgreesExactly(event, "service_npub", Get(ServiceOf(payload), Key.ServiceNpub));
    AgreesExactly(event, "workspace_service_npub", Get(WorkspaceOf(payload), Key.WorkspaceServiceNpub));
    AgreesExactly(event, "workspace_owner_npub", Get(WorkspaceOf(payload), Key.OwnerNpub));
    AgreesExactly(event, "d", Get(payload, Key.DedupeKey));
    AgreesExactly(event, "grant", GrantIdOf(payload));
    AgreesExactly(event, "recipient", RecipientOf(payload));
    AgreesExactly(event, "issuer", IssuerOf(payload));
    assert RecipientOf(payload) == Recipient(payload) && IssuerOf(payload) == Issuer(payload);
    assert GrantIdOf(payload) == FirstGiven(Get(payload, Key.GrantId), Get(Get(payload, Key.Grant), Key.GrantId));
    hide TagSays, SaySame, OptionalTag, Agree, TagOr, Get, FirstGiven, GrantIdOf, RecipientOf, IssuerOf, Recipient,
        Issuer;
  }

  /** Tower, workspace, app and recipient of the payload, written out. */
  function Connection(lib: Library, payload: Json, recipientNpub: string): string {
    Text(lib, Get(ServiceOf(payload), Key.ServiceNpub)) + ":" +
    Text(lib, Get(WorkspaceOf(payload), Key.WorkspaceServiceNpub)) + ":" +
    Text(lib, Get(AppOf(payload), Key.AppNpub)) + ":" + recipientNpub
  }

  function DedupeKey(lib: Library, payload: Json, recipientNpub: string): string {
    "wingman-access-grant:v1:" + Connection(lib, payload, recipientNpub)
  }

  /** The key that payload or, failing that, the `d` tag states. */
  ghost predicate StatesKey(event: Event, payload: Json, key: string) {
    if IsGiven(Get(payload, Key.DedupeKey)) then
      Truthy(Get(payload, Key.DedupeKey)) ==> Get(payload, Key.DedupeKey) == Str(key)
    else forall text | TagSays(event, "d", text) :: text == key
  }

  /** The grant's own id: the payload's, the tag's, or one made from the key. */
  ghost predicate IsGrantId(lib: Library, event: Event, payload: Json, key: string, id: Json) {
    var stated := FirstGiven(Get(payload, Key.GrantId), Get(Get(payload, Key.Grant), Key.GrantId));
    if IsGiven(stated) then id == stated
    else
      && (forall text | TagSays(event, "grant", text) :: id == Str(text))
      && ((forall text :: !TagSays(event, "grant", text)) ==> id == Str("sha256:" + lib.sha256(key)))
  }

  /** The fields that a complete payload has, as the cross-checks need them. */
  predicate HasIdentities(payload: Json) {
    && payload.Obj? && Truthy(Issuer(payload)) && Truthy(Recipient(payload))
    && Truthy(Get(ServiceOf(payload), Key.ServiceNpub)) && Truthy(Get(WorkspaceOf(payload), Key.WorkspaceServiceNpub))
    && Truthy(Get(WorkspaceOf(payload), Key.OwnerNpub)) && Truthy(Get(AppOf(payload), Key.AppNpub))
  }

  /** A grant whose tags fit names what its payload names. */
  lemma GrantReads(lib: Library, event: Event, payload: Json, signer: string, recipientNpub: string)
    requires HasIdentities(payload) && TagsFit(event, payload, signer, recipientNpub)
    ensures var grant := GrantOf(lib, event, payload, signer, recipientNpub);
            && grant.event == event && grant.recipientNpub == recipientNpub && grant.signerNpub == signer
            && grant.issuerNpub == Str(signer)
            && grant.serviceNpub == Get(ServiceOf(payload), Key.ServiceNpub)
            && grant.workspaceServiceNpub == Get(WorkspaceOf(payload), Key.WorkspaceServiceNpub)
            && grant.workspaceOwnerNpub == Get(WorkspaceOf(payload), Key.OwnerNpub)
            && grant.appNpub == Get(AppOf(payload), Key.AppNpub)
            && grant.canonicalConnectionKey == Connection(lib, payload, recipientNpub)
            && grant.dedupeKey == DedupeKey(lib, payload, recipientNpub)
            && IsGrantId(lib, event, payload, grant.dedupeKey, grant.grantId)
            && (forall key :: Get(grant.payload, key) ==
                              if key == Key.DedupeKey then Str(grant.dedupeKey)
                              else if key == Key.GrantId then grant.grantId
                              else Get(payload, key))
  {
    AgreesExactly(event, "issuer", IssuerOf(payload));
    AgreesExactly(event, "service_npub", Get(ServiceOf(payload), Key.ServiceNpub));
    AgreesExactly(event, "workspace_service_npub", Get(WorkspaceOf(payload), Key.WorkspaceServiceNpub));
    AgreesExactly(event, "workspace_owner_npub", Get(WorkspaceOf(payload), Key.OwnerNpub));
    AgreesExactly(event, "app_npub", Get(AppOf(payload), Key.AppNpub));
    assert RecipientOf(payload) == Recipient(payload) && IssuerOf(payload) == Issuer(payload);
    IdReads(lib, event, payload, DedupeKey(lib, payload, recipientNpub));
    var grant := GrantOf(lib, event, payload, signer, recipientNpub);
    hide OptionalTag, TagSays, SaySame, Agree, TagOr, Text, IsGrantId, GrantIdOf, IssuerOf, RecipientOf, Issuer,
        Recipient;
    KeyReads(lib, payload, recipientNpub);
    KeyedReads(payload, grant.dedupeKey, grant.grantId);
    hide Get, Set;
  }

  lemma KeyReads(lib: Library, payload: Json, recipientNpub: string)
    ensures var service := Text(lib, Get(ServiceOf(payload), Key.ServiceNpub));
            var workspace := Text(lib, Get(WorkspaceOf(payload), Key.WorkspaceServiceNpub));
            var app := Text(lib, Get(AppOf(payload), Key.AppNpub));
            && ConnectionKey(service, workspace, app, recipientNpub) == Connection(lib, payload, recipientNpub)
            && AccessGrantDedupeKey(service, workspace, app, recipientNpub) == DedupeKey(lib, payload, recipientNpub)
  {
    hide Get, Text;
  }

  lemma KeyedReads(payload: Json, dedupeKey: string, grantId: Json)
    requires payload.Obj?
    ensures forall key :: Get(Set(Set(payload, Key.DedupeKey, Str(dedupeKey)), Key.GrantId, grantId), key) ==
                          if key == Key.DedupeKey then Str(dedupeKey)
                          else if key == Key.GrantId then grantId
                          else Get(payload, key)
  {
  }

  lemma IdReads(lib: Library, event: Event, payload: Json, key: string)
    ensures IsGrantId(lib, event, payload, key,
              Else(Else(GrantIdOf(payload), Value(OptionalTag(event, "grant"))), Str("sha256:" + lib.sha256(key))))
  {
    forall text ensures OptionalTag(event, "grant") == Some(text) <==> TagSays(event, "grant", text) {
      OptionalTagExactly(event, "grant", text);
    }
    hide TagSays, OptionalTag, Get;
    if OptionalTag(event, "grant").Some? { assert TagSays(event, "grant", OptionalTag(event, "grant").value); }
  }

  // ----- decoding -----

  /** The announcement has a readable time of expiry that has come. */
  predicate IsStale(lib: Library, payload: Json, now: int) {
    && Get(payload, Key.Action) == Str("grant") && Truthy(Get(payload, Key.ExpiresAt))
    && match lib.dateMs(Get(payload, Key.ExpiresAt)) { case None => false case Some(at) => now >= at }
  }

  /** The decrypted text parses to a payload, which is then normalised to this. */
  predicate IsSealed(lib: Library, event: Event, parsed: Json) {
    event.plaintext.Some? && lib.parse(event.plaintext.value) == Some(parsed)
  }

  lemma PayloadHasIdentities(lib: Library, parsed: Json)
    requires ParsePayload(lib, parsed).Ok?
    ensures HasIdentities(ParsePayload(lib, parsed).value)
  {
    ParsedIsComplete(lib, parsed);
    hide ParsePayload;
  }

  lemma KeyStated(event: Event, payload: Json, key: string)
    ensures Agree(Str(key), Else(Get(payload, Key.DedupeKey), Value(OptionalTag(event, "d")))) && key != "" <==>
            StatesKey(event, payload, key) && key != ""
  {
    forall text ensures OptionalTag(event, "d") == Some(text) <==> TagSays(event, "d", text) {
      OptionalTagExactly(event, "d", text);
    }
    hide TagSays, OptionalTag, Get;
    if OptionalTag(event, "d").Some? { assert TagSays(event, "d", OptionalTag(event, "d").value); }
  }

  lemma DedupeKeyIsText(lib: Library, payload: Json, recipientNpub: string)
    ensures DedupeKey(lib, payload, recipientNpub) != ""
  {
    hide Connection;
  }

  lemma DecodeUnfolds(lib: Library, event: Event, recipientNpub: string, now: int, signer: string, parsed: Json)
    requires CheckEnvelope(lib, event, recipientNpub) == Ok(signer) && IsSealed(lib, event, parsed)
    requires ParsePayload(lib, parsed).Ok?
    ensures var payload := ParsePayload(lib, parsed).value;
            var grant := GrantOf(lib, event, payload, signer, recipientNpub);
            var stated := Else(Get(payload, Key.DedupeKey), Value(OptionalTag(event, "d")));
            Decode(lib, event, recipientNpub, now) ==
            if !TagsAgree(ReadTags(event), payload, signer, recipientNpub) || !Agree(Str(grant.dedupeKey), stated) then
              Err("tag_payload_mismatch")
            else if IsStale(lib, payload, now) then Err("stale_event")
            else Ok(grant)
  {
    hide CheckEnvelope, ParsePayload, TagsAgree, ReadTags, OptionalTag, Agree, GrantOf, IsStale, Expired, Get;
    TagRead(event);
    StaleReads(lib, ParsePayload(lib, parsed).value, now);
  }

  lemma StaleReads(lib: Library, payload: Json, now: int)
    ensures IsStale(lib, payload, now) <==>
            Get(payload, Key.Action) == Str("grant") && Expired(lib, payload, now)
  {
    hide Get;
  }

  /** What stands between an addressed event whose payload parses and its grant. */
  lemma DecodeContinues(lib: Library, event: Event, recipientNpub: string, now: int, signer: string, parsed: Json)
    requires IsAddressed(lib, event, recipientNpub, signer) && IsSealed(lib, event, parsed)
    requires ParsePayload(lib, parsed).Ok?
    ensures var payload := ParsePayload(lib, parsed).value;
            Decode(lib, event, recipientNpub, now) ==
            if !TagsFit(event, payload, signer, recipientNpub) ||
               !StatesKey(event, payload, DedupeKey(lib, payload, recipientNpub)) then Err("tag_payload_mismatch")
            else if IsStale(lib, payload, now) then Err("stale_event")
            else Ok(GrantOf(lib, event, payload, signer, recipientNpub))
  {
    hide Decode, CheckEnvelope, ParsePayload, TagsAgree, TagsFit, ReadTags, OptionalTag, Agree, StatesKey, GrantOf,
        DedupeKey, IsStale, IsAddressed, IsGrantId, Get, IsSealed;
    var payload := ParsePayload(lib, parsed).value;
    EnvelopeExactly(lib, event, recipientNpub, signer);
    DecodeUnfolds(lib, event, recipientNpub, now, signer, parsed);
    PayloadHasIdentities(lib, parsed);
    TagsExactly(event, payload, signer, recipientNpub);
    KeyStated(event, payload, DedupeKey(lib, payload, recipientNpub));
    DedupeKeyIsText(lib, payload, recipientNpub);
    if TagsFit(event, payload, signer, recipientNpub) { GrantReads(lib, event, payload, signer, recipientNpub); }
  }

  lemma TagRead(event: Event)
    ensures ReadTags(event).d == OptionalTag(event, "d")
  {
    hide OptionalTag;
  }

  ghost predicate FitsEvent(lib: Library, event: Event, payload: Result<Json>, recipientNpub: string, now: int,
        signer: string) {
    && payload.Ok? && TagsFit(event, payload.value, signer, recipientNpub)
    && StatesKey(event, payload.value, DedupeKey(lib, payload.value, recipientNpub))
    && !IsStale(lib, payload.value, now)
  }

  /**
   * An event decodes exactly if it is signed for its reader, its sealed text is a payload that its tags fit, a key that
   * is stated is the one its identities make, and an announcement of access has not expired.
   */
  lemma DecodesExactly(lib: Library, event: Event, recipientNpub: string, now: int, signer: string, parsed: Json)
    requires IsAddressed(lib, event, recipientNpub, signer) && IsSealed(lib, event, parsed)
    ensures Decode(lib, event, recipientNpub, now).Ok? <==>
            IsPayload(lib, parsed) && FitsEvent(lib, event, ParsePayload(lib, parsed), recipientNpub, now, signer)
  {
    ParsesExactly(lib, parsed);
    EnvelopeExactly(lib, event, recipientNpub, signer);
    hide TagsFit, StatesKey, IsStale, IsPayload, IsAddressed, DedupeKey;
    if ParsePayload(lib, parsed).Ok? {
      hide Decode, ParsePayload;
      DecodeContinues(lib, event, recipientNpub, now, signer, parsed);
    } else {
      hide ParsePayload, CheckEnvelope;
    }
  }

  /** An event that is not addressed, not sealed or holds no payload does not decode. */
  lemma OthersDoNotDecode(lib: Library, event: Event, recipientNpub: string, now: int)
    ensures (forall signer :: !IsAddressed(lib, event, recipientNpub, signer)) ==>
              CheckEnvelope(lib, event, recipientNpub).Err? &&
              Decode(lib, event, recipientNpub, now) == Err(CheckEnvelope(lib, event, recipientNpub).code)
    ensures forall signer | IsAddressed(lib, event, recipientNpub, signer) ::
              && (event.plaintext.None? ==> Decode(lib, event, recipientNpub, now) == Err("decrypt_failed"))
              && (event.plaintext.Some? && lib.parse(event.plaintext.value).None? ==>
                    Decode(lib, event, recipientNpub, now) == Err("payload_invalid"))
  {
    forall signer
      ensures CheckEnvelope(lib, event, recipientNpub) == Ok(signer) <==>
              IsAddressed(lib, event, recipientNpub, signer)
    {
      EnvelopeExactly(lib, event, recipientNpub, signer);
    }
    hide CheckEnvelope, IsAddressed;
    if CheckEnvelope(lib, event, recipientNpub).Ok? {
      assert IsAddressed(lib, event, recipientNpub, CheckEnvelope(lib, event, recipientNpub).value);
    }
  }
}

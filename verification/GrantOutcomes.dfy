/**
 What a call for an access-grant event comes to, told by the call and its event: whose grants are imported in any run,
 whose are refused, and what each remaining answer, key and question stands for.
 */
module GrantOutcomes {
  import opened AccessGrant
  import opened AgentConnect
  import opened GrantImport
  import opened GrantProcess
  import opened Json
  import opened TowerAnswers
  import opened TowerVerify
  import opened Wrappers

  // ----- who is trusted -----

  /** The caller's own check accepts the signer; without one, only the manager is accepted. */
  predicate Trusts(call: Call, signer: string) {
    match call.isAuthorizedIssuer
    case Some(accepts) => accepts(Str(signer))
    case None => call.managedByNpub != "" && signer == call.managedByNpub
  }

  /** The event was signed by that key. */
  ghost predicate SignedBy(lib: Library, event: Event, signer: string) {
    event.signatureValid && lib.npubOf(event.pubkey) == Some(signer)
  }

  lemma DecodedSigner(lib: Library, call: Call)
    requires DecodeCall(lib, call).Ok?
    ensures var grant := DecodeCall(lib, call).value;
            && SignedBy(lib, call.event, grant.signerNpub) && grant.issuerNpub == Str(grant.signerNpub)
            && grant.event == call.event && grant.recipientNpub == call.recipientNpub
            && Get(grant.payload, Key.Action).Str? && IsAction(Get(grant.payload, Key.Action).s)
  {
    DecodedSaysWhatPayloadSays(lib, call.event, call.recipientNpub, call.now);
    var signer, payload := DecodedParts(lib, call.event, call.recipientNpub, call.now);
    hide Decode, ReadTags, TagsAgree, Complete;
    assert Complete(DecodeCall(lib, call).value.payload);
  }

  lemma SignerIsText(lib: Library, call: Call)
    requires DecodeCall(lib, call).Ok?
    ensures DecodeCall(lib, call).value.signerNpub != ""
  {
    DecodedSaysWhatPayloadSays(lib, call.event, call.recipientNpub, call.now);
    hide Decode;
  }

  lemma AuthorizedIsTrusted(lib: Library, call: Call)
    requires DecodeCall(lib, call).Ok?
    ensures var grant := DecodeCall(lib, call).value;
            IssuerAuthorized(grant, call) <==> Trusts(call, grant.signerNpub)
  {
    DecodedSigner(lib, call);
    SignerIsText(lib, call);
    hide DecodeCall;
  }

  /** What a call says and what it records when it runs to its end. */
  function Outcome(lib: Library, call: Call, processedKeys: set<string>): (Reply, Option<string>) {
    Finish(lib, call, Start(lib, call, processedKeys))
  }

  /**
   * A grant that decodes and whose signer is not trusted is refused, whatever Tower and the manager would have said,
   * and nothing is recorded.
   */
  lemma UntrustedIsRefused(lib: Library, call: Call, signer: string, tower: Tower, manager: Manager, keys: set<string>)
    requires DecodeCall(lib, call).Ok? && SignedBy(lib, call.event, signer) && !Trusts(call, signer)
    ensures Outcome(lib, call.(tower := tower, manager := manager), keys) == (Reply(false, "unauthorized_issuer"), None)
  {
    DecodedSigner(lib, call);
    var other := call.(tower := tower, manager := manager);
    assert DecodeCall(lib, other) == DecodeCall(lib, call);
    AuthorizedIsTrusted(lib, other);
    hide DecodeCall, IssuerAuthorized;
  }

  /** Among other calls, a call of an untrusted signer asks nothing and leaves everything as it was. */
  lemma UntrustedLeavesNoTrace(lib: Library, s: Runtime, id: nat, call: Call, signer: string)
    requires DecodeCall(lib, call).Ok? && SignedBy(lib, call.event, signer) && !Trusts(call, signer)
    requires id !in s.inFlight
    ensures GrantProcess.Apply(lib, s, Begin(id, call)) == s
  {
    DecodedSigner(lib, call);
    AuthorizedIsTrusted(lib, call);
    hide DecodeCall, IssuerAuthorized;
  }

  /** What the grant announces, in its payload's own words. */
  predicate Announces(grant: Grant, action: string, status: string) {
    Get(grant.payload, Key.Action) == Str(action) && Get(grant.payload, Key.Status) == Str(status)
  }

  /** The key under which an import is recorded. */
  function KeyOfImport(grant: Grant): string {
    grant.event.id + ":" + "wingman-access-grant:v1:" + grant.canonicalConnectionKey + ":grant"
  }

  function KeyOfRevocation(grant: Grant, action: string): string {
    grant.event.id + ":" + grant.canonicalConnectionKey + ":revocation:" + action
  }

  lemma Rejoined(a: string, b: string, c: string, d: string)
    ensures a + (b + c) + d == a + b + c + d
  {
    assert a + (b + c) == a + b + c;
  }

  lemma ImportKeyAsWritten(grant: Grant)
    requires grant.dedupeKey == "wingman-access-grant:v1:" + grant.canonicalConnectionKey
    ensures ImportKey(grant) == KeyOfImport(grant)
  {
    Rejoined(grant.event.id + ":", "wingman-access-grant:v1:", grant.canonicalConnectionKey, ":grant");
  }

  /** What each grant that decodes records its outcome under. */
  lemma KeysAsWritten(lib: Library, call: Call, action: string)
    requires DecodeCall(lib, call).Ok?
    ensures var grant := DecodeCall(lib, call).value;
            && ImportKey(grant) == KeyOfImport(grant)
            && (Get(grant.payload, Key.Action) == Str(action) ==>
                  RevocationKey(lib, grant) == KeyOfRevocation(grant, action))
  {
    DecodedSaysWhatPayloadSays(lib, call.event, call.recipientNpub, call.now);
    ImportKeyAsWritten(DecodeCall(lib, call).value);
    hide Decode, ImportKey, KeyOfImport;
  }

  ghost predicate HasAccess(grant: Grant, tower: Tower) {
    exists body :: GivesAccess(grant, tower, body)
  }

  /** Tower vouches for the grant, its package matches and rescopes to a valid one, and the import succeeds. */
  ghost predicate GoesThrough(lib: Library, call: Call, grant: Grant) {
    && HasAccess(grant, call.tower) && Matches(lib, grant)
    && Validate(lib, Scoped(lib, grant)).Some? && call.manager.importError.None?
  }

  lemma ThroughExactly(lib: Library, call: Call, grant: Grant)
    ensures Imports(lib, call, grant) <==> GoesThrough(lib, call, grant)
    ensures Access(grant, call.tower).Some? <==> HasAccess(grant, call.tower)
  {
    forall body ensures Access(grant, call.tower) == Some(body) <==> GivesAccess(grant, call.tower, body) {
      AccessExactly(grant, call.tower, body);
    }
    hide Access, GivesAccess, Matches, Validate, Scoped;
    if Access(grant, call.tower).Some? { assert GivesAccess(grant, call.tower, Access(grant, call.tower).value); }
  }

  /** The grant decodes, its signer is trusted, it announces this, and this key has not been recorded. */
  ghost predicate IsDue(lib: Library, call: Call, grant: Grant, keys: set<string>, action: string, key: string) {
    && DecodeCall(lib, call) == Ok(grant) && Trusts(call, grant.signerNpub)
    && Get(grant.payload, Key.Action) == Str(action) && key !in keys
  }

  /** A call imports, and records its import's key, exactly when the grant is due, active and goes through. */
  lemma ImportsExactly(lib: Library, call: Call, grant: Grant, keys: set<string>)
    ensures IsDue(lib, call, grant, keys, "grant", KeyOfImport(grant)) && Announces(grant, "grant", "active") &&
            GoesThrough(lib, call, grant)
            <==> Start(lib, call, keys) == Importing(grant, KeyOfImport(grant)) &&
                 Outcome(lib, call, keys).1 == Some(KeyOfImport(grant))
  {
    if DecodeCall(lib, call).Ok? {
      KeysAsWritten(lib, call, "grant");
      AuthorizedIsTrusted(lib, call);
    }
    ThroughExactly(lib, call, grant);
    hide DecodeCall, IssuerAuthorized, Imports, GoesThrough, ImportKey, KeyOfImport, RevocationKey, ImportReply, Trusts,
        RevocationReply, Revokes;
  }

  /** Announced as active, and not recorded before. */
  predicate IsNew(grant: Grant, keys: set<string>) {
    Announces(grant, "grant", "active") && KeyOfImport(grant) !in keys
  }

  /** The error a grant meets on its way, in the order in which it is met. */
  ghost predicate Meets(lib: Library, call: Call, grant: Grant, error: string) {
    if !HasAccess(grant, call.tower) then error == "tower_verify_failed"
    else if !Matches(lib, grant) then error == "agent_connect_mismatch"
    else if Validate(lib, Scoped(lib, grant)).None? then error == "import_failed"
    else call.manager.importError == Some(error)
  }

  /**
   * What a trusted grant is answered. One that goes through is recorded whatever becomes of the synchronisation after
   * it; every other one leaves the keys alone and may be tried again.
   */
  lemma GrantReplies(lib: Library, call: Call, grant: Grant, keys: set<string>)
    requires DecodeCall(lib, call) == Ok(grant) && Trusts(call, grant.signerNpub)
    requires Get(grant.payload, Key.Action) == Str("grant")
    ensures var (reply, recorded) := Outcome(lib, call, keys);
            var arrives := IsNew(grant, keys) && GoesThrough(lib, call, grant);
            var kept := arrives && !call.manager.ignoredLocally && !call.manager.staleDiscoveryEvent;
            && recorded == (if arrives then Some(KeyOfImport(grant)) else None)
            && (forall status | Get(grant.payload, Key.Status) == Str(status) && status != "active" ::
                  reply == Reply(false, "grant_" + status))
            && (Announces(grant, "grant", "active") && KeyOfImport(grant) in keys ==>
                  reply == Reply(true, "duplicate_skipped"))
            && (forall e | IsNew(grant, keys) && Meets(lib, call, grant, e) :: reply == Reply(false, e))
            && (arrives && call.manager.ignoredLocally ==> reply == Reply(true, "locally_disconnected"))
            && (arrives && !call.manager.ignoredLocally && call.manager.staleDiscoveryEvent ==>
                  reply == Reply(true, "stale_replacement_skipped"))
            && (kept && call.manager.syncError.None? ==> reply == Reply(true, "imported"))
            && (forall e | kept && call.manager.syncError == Some(e) :: reply == Reply(false, e))
  {
    KeysAsWritten(lib, call, "grant");
    AuthorizedIsTrusted(lib, call);
    ThroughExactly(lib, call, grant);
    StatusOfDecoded(lib, call);
    hide DecodeCall, IssuerAuthorized, ImportKey, KeyOfImport, RevocationKey, Trusts, RevocationReply, Revokes, Access,
        GivesAccess, Matches, Validate, Scoped;
  }

  lemma StatusOfDecoded(lib: Library, call: Call)
    requires DecodeCall(lib, call).Ok?
    ensures forall status | Get(DecodeCall(lib, call).value.payload, Key.Status) == Str(status) ::
              Text(lib, Get(DecodeCall(lib, call).value.payload, Key.Status)) == status
  {
    hide DecodeCall;
  }

  /** Tower confirms that access has gone. */
  predicate Confirms(verification: Option<Verification>) {
    verification.Some? && verification.value.confirmed
  }

  /**
   * What a revocation or deletion is answered: it is confirmed and recorded exactly when Tower confirms it and every
   * handler goes through, and what is not recorded is tried again.
   */
  lemma RevocationReplies(lib: Library, call: Call, grant: Grant, keys: set<string>, action: string)
    requires DecodeCall(lib, call) == Ok(grant) && Trusts(call, grant.signerNpub)
    requires Get(grant.payload, Key.Action) == Str(action) && action != "grant"
    ensures var (reply, recorded) := Outcome(lib, call, keys);
            var key := KeyOfRevocation(grant, action);
            var verification := Revocation(grant, call.tower);
            var active := verification.Some? && verification.value.result == AccessActive;
            var handled := call.manager.handleError.None?;
            && (recorded == if key !in keys && Confirms(verification) && handled && !call.manager.revocationSyncThrows
                            then Some(key) else None)
            && (key in keys ==> reply == Reply(true, "duplicate_skipped"))
            && (recorded == Some(key) ==> reply == Reply(true, "revocation_confirmed"))
            && (key !in keys && Confirms(verification) && handled && call.manager.revocationSyncThrows ==>
                  reply == Rejected)
            && (key !in keys && verification.None? ==> reply == Reply(false, "tower_revocation_verify_failed"))
            && (key !in keys && verification.Some? && !handled ==>
                  reply == Reply(false, call.manager.handleError.value))
            && (key !in keys && verification.Some? && !Confirms(verification) && handled ==>
                  reply == Reply(false, if active then "revocation_unconfirmed_access_active"
                                        else "revocation_unconfirmed"))
  {
    KeysAsWritten(lib, call, action);
    AuthorizedIsTrusted(lib, call);
    hide DecodeCall, IssuerAuthorized, ImportKey, RevocationKey, KeyOfRevocation, Trusts, Revocation, ImportReply,
        Imports;
  }

  /** A trusted signer is never told to be unauthorised, except in words of the manager's own. */
  lemma TrustedIsNotRefused(lib: Library, call: Call, grant: Grant, keys: set<string>)
    requires DecodeCall(lib, call) == Ok(grant) && Trusts(call, grant.signerNpub)
    requires "unauthorized_issuer" !in Errors(call.manager)
    ensures Outcome(lib, call, keys).0 != Reply(false, "unauthorized_issuer")
  {
    AuthorizedIsTrusted(lib, call);
    hide DecodeCall, IssuerAuthorized, ImportKey, RevocationKey, Trusts, Access, Matches, Validate, Scoped, Revocation;
    var refusal := "unauthorized_issuer";
    assert refusal[0] == 'u';
    assert forall text :: ("grant_" + text)[0] == 'g';
  }

  function Errors(manager: Manager): set<string> {
    (if manager.importError.Some? then {manager.importError.value} else {}) +
    (if manager.syncError.Some? then {manager.syncError.value} else {}) +
    (if manager.handleError.Some? then {manager.handleError.value} else {})
  }

  /** What every import of a run was: signed by a trusted signer, announced as active, and given access by Tower. */
  ghost predicate WasDue(lib: Library, flight: Flight) {
    && DecodeCall(lib, flight.call).Ok?
    && var grant := DecodeCall(lib, flight.call).value;
    && SignedBy(lib, flight.call.event, grant.signerNpub) && Trusts(flight.call, grant.signerNpub)
    && grant.issuerNpub == Str(grant.signerNpub)
    && Announces(grant, "grant", "active") && GoesThrough(lib, flight.call, grant)
    && flight.started == Importing(grant, KeyOfImport(grant))
  }

  lemma ImportedWasDue(lib: Library, flight: Flight)
    requires WasImported(lib, flight)
    ensures WasDue(lib, flight)
  {
    hide Decode, Imports, SaysWhatPayloadSays, Matches, Validate, Scoped, Access, GoesThrough, IssuerAuthorized, Trusts,
        KeyOfImport, ImportKey;
    DecodedSigner(lib, flight.call);
    AuthorizedIsTrusted(lib, flight.call);
    KeysAsWritten(lib, flight.call, "grant");
    ThroughExactly(lib, flight.call, flight.started.grant);
  }

  /** Whatever calls interleave, nothing is imported that its caller's own check of the signer does not accept. */
  lemma EveryImportIsAuthorized(lib: Library, steps: seq<GrantProcess.Step>)
    requires GrantProcess.IsRun(lib, GrantProcess.EMPTY, steps)
    ensures forall flight <- GrantProcess.Run(lib, GrantProcess.EMPTY, steps).imports :: WasDue(lib, flight)
  {
    hide GrantProcess.Apply, GrantProcess.Enabled, GrantProcess.IsRun, GrantProcess.Run, WasDue, WasImported;
    RunKeepsWellStarted(lib, GrantProcess.EMPTY, steps);
    forall flight <- GrantProcess.Run(lib, GrantProcess.EMPTY, steps).imports ensures WasDue(lib, flight) {
      ImportedWasDue(lib, flight);
    }
  }
}

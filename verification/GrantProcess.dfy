/** Processing access-grant events against one shared set of processed keys, with calls in flight at the same time. */
module GrantProcess {
  import opened AccessGrant
  import opened AgentConnect
  import opened GrantImport
  import opened Json
  import opened TowerVerify
  import opened Wrappers

  /** What the subscription manager and the sync callbacks do; an error carries its code. */
  datatype Manager = Manager(
    importError: Option<string>,
    ignoredLocally: bool,
    staleDiscoveryEvent: bool,
    syncError: Option<string>,
    handleError: Option<string>,
    revocationSyncThrows: bool
  )

  datatype Call = Call(
    event: Event,
    recipientNpub: string,
    managedByNpub: string,
    isAuthorizedIssuer: Option<Json -> bool>,
    now: int,
    tower: Tower,
    manager: Manager
  )

  /** `Rejected` is a call whose promise rejects. */
  datatype Reply = Reply(ok: bool, code: string) | Rejected

  predicate IssuerAuthorized(grant: Grant, call: Call) {
    Truthy(grant.issuerNpub) &&
    if call.isAuthorizedIssuer.Some? then call.isAuthorizedIssuer.value(grant.issuerNpub)
    else call.managedByNpub != "" && grant.issuerNpub == Str(call.managedByNpub)
  }

  // ----- keys -----

  function ImportKey(grant: Grant): string {
    grant.event.id + ":" + grant.dedupeKey + ":grant"
  }

  function RevocationKey(lib: Library, grant: Grant): string {
    grant.event.id + ":" + grant.canonicalConnectionKey + ":revocation:" + Text(lib, Get(grant.payload, Key.Action))
  }

  predicate ColonFree(s: string) {
    ':' !in s
  }

  lemma FirstColon(a: string, restA: string, b: string, restB: string)
    requires ColonFree(a) && ColonFree(b) && a + ":" + restA == b + ":" + restB
    ensures a == b && restA == restB
  {
    var s, t := a + ":" + restA, b + ":" + restB;
    assert (forall i | 0 <= i < |a| :: s[i] == a[i]) && s[|a|] == ':';
    assert (forall i | 0 <= i < |b| :: t[i] == b[i]) && t[|b|] == ':';
    assert |a| == |b|;
    assert a == s[..|a|] && b == t[..|b|] && restA == s[|a| + 1..] && restB == t[|b| + 1..];
  }

  /** Two different identity quadruples never share a dedupe key, provided no identity contains a colon. */
  lemma DedupeKeyIsInjective(s: string, w: string, a: string, r: string, s': string, w': string, a': string, r': string)
    requires ColonFree(s) && ColonFree(w) && ColonFree(a) && ColonFree(s') && ColonFree(w') && ColonFree(a')
    requires AccessGrantDedupeKey(s, w, a, r) == AccessGrantDedupeKey(s', w', a', r')
    ensures s == s' && w == w' && a == a' && r == r'
  {
    var prefix := "wingman-access-grant:v1:";
    assert ConnectionKey(s, w, a, r) == AccessGrantDedupeKey(s, w, a, r)[|prefix|..];
    assert ConnectionKey(s', w', a', r') == AccessGrantDedupeKey(s', w', a', r')[|prefix|..];
    assert ConnectionKey(s, w, a, r) == s + ":" + (w + ":" + (a + ":" + r));
    assert ConnectionKey(s', w', a', r') == s' + ":" + (w' + ":" + (a' + ":" + r'));
    FirstColon(s, w + ":" + (a + ":" + r), s', w' + ":" + (a' + ":" + r'));
    FirstColon(w, a + ":" + r, w', a' + ":" + r');
    FirstColon(a, r, a', r');
  }

  /** With a colon in an identity, two quadruples can share a key. */
  lemma ColonsCollide()
    ensures AccessGrantDedupeKey("a:b", "c", "d", "e") == AccessGrantDedupeKey("a", "b:c", "d", "e")
  {
    assert "a:b" + ":" + "c" == "a" + ":" + "b:c";
  }

  /** An import and a revocation never claim the same key. */
  lemma ImportAndRevocationKeysDiffer(lib: Library, g: Grant, h: Grant)
    requires Complete(h.payload) && Get(h.payload, Key.Action) != Str("grant")
    ensures ImportKey(g) != RevocationKey(lib, h)
  {
    var i, r := ImportKey(g), RevocationKey(lib, h);
    assert i[|i| - 1] == 't';
    var action := Get(h.payload, Key.Action).s;
    assert r[|r| - 1] == action[|action| - 1];
    assert action == "revoked" || action == "deleted";
    assert "revoked"[6] == 'd' && "deleted"[6] == 'd';
  }

  // ----- one call, up to its first question to Tower -----

  datatype Started =
    | Replied(reply: Reply)
    | Importing(grant: Grant, key: string)
    | Revoking(grant: Grant, key: string)

  function StartDecoded(lib: Library, call: Call, grant: Grant, processedKeys: set<string>): Started {
    if !IssuerAuthorized(grant, call) then Replied(Reply(false, "unauthorized_issuer"))
    else if Get(grant.payload, Key.Action) != Str("grant") then
      var key := RevocationKey(lib, grant);
      if key in processedKeys then Replied(Reply(true, "duplicate_skipped")) else Revoking(grant, key)
    else if Get(grant.payload, Key.Status) != Str("active") then
      Replied(Reply(false, "grant_" + Text(lib, Get(grant.payload, Key.Status))))
    else
      var key := ImportKey(grant);
      if key in processedKeys then Replied(Reply(true, "duplicate_skipped")) else Importing(grant, key)
  }

  function DecodeCall(lib: Library, call: Call): Result<Grant> {
    Decode(lib, call.event, call.recipientNpub, call.now)
  }

  function Start(lib: Library, call: Call, processedKeys: set<string>): Started {
    match DecodeCall(lib, call)
    case Err(code) => Replied(Reply(false, code))
    case Ok(grant) => StartDecoded(lib, call, grant, processedKeys)
  }

  // ----- the rest of the call -----

  /** Tower confirms access, the package matches, and the rescoped package imports. */
  predicate Imports(lib: Library, call: Call, grant: Grant) {
    && Access(grant, call.tower).Some? && Matches(lib, grant)
    && Validate(lib, Scoped(lib, grant)).Some? && call.manager.importError.None?
  }

  function OrCode(error: Option<string>, code: string): string {
    if error.Some? then error.value else code
  }

  function ImportReply(lib: Library, call: Call, grant: Grant): Reply {
    if Access(grant, call.tower).None? then Reply(false, "tower_verify_failed")
    else if !Matches(lib, grant) then Reply(false, "agent_connect_mismatch")
    else if !Imports(lib, call, grant) then
      Reply(false, if Validate(lib, Scoped(lib, grant)).None? then "import_failed"
                   else OrCode(call.manager.importError, "import_failed"))
    else if call.manager.ignoredLocally then Reply(true, "locally_disconnected")
    else if call.manager.staleDiscoveryEvent then Reply(true, "stale_replacement_skipped")
    else if call.manager.syncError.Some? then Reply(false, call.manager.syncError.value)
    else Reply(true, "imported")
  }

  /** Tower confirms the revocation and every handler goes through. */
  predicate Revokes(call: Call, grant: Grant) {
    var verification := Revocation(grant, call.tower);
    && verification.Some? && verification.value.confirmed
    && call.manager.handleError.None? && !call.manager.revocationSyncThrows
  }

  function RevocationReply(call: Call, grant: Grant): Reply {
    var verification := Revocation(grant, call.tower);
    if verification.None? then Reply(false, "tower_revocation_verify_failed")
    else if call.manager.handleError.Some? then Reply(false, call.manager.handleError.value)
    else if !verification.value.confirmed then
      Reply(false, if verification.value.result == AccessActive then "revocation_unconfirmed_access_active"
                   else "revocation_unconfirmed")
    else if call.manager.revocationSyncThrows then Rejected
    else Reply(true, "revocation_confirmed")
  }

  function Finish(lib: Library, call: Call, started: Started): (Reply, Option<string>) {
    match started
    case Replied(reply) => (reply, None)
    case Importing(grant, key) => (ImportReply(lib, call, grant), if Imports(lib, call, grant) then Some(key) else None)
    case Revoking(grant, key) => (RevocationReply(call, grant), if Revokes(call, grant) then Some(key) else None)
  }

  function Recorded(key: Option<string>): set<string> {
    if key.Some? then {key.value} else {}
  }

  class GrantProcessor {
    var processedKeys: set<string>

    constructor ()
      ensures processedKeys == {}
    {
      processedKeys := {};
    }

    /** `processAccessGrantEvent`, run to its end without another call in between. */
    method Process(lib: Library, call: Call) returns (reply: Reply)
      modifies this
      ensures var (said, key) := Finish(lib, call, Start(lib, call, old(processedKeys)));
              reply == said && processedKeys == old(processedKeys) + Recorded(key)
    {
      hide Decode, Matches, Validate, Scoped, Access, Revocation;
      var decoded := DecodeCall(lib, call);
      if decoded.Err? { return Reply(false, decoded.code); }
      var grant := decoded.value;
      if !IssuerAuthorized(grant, call) { return Reply(false, "unauthorized_issuer"); }
      if Get(grant.payload, Key.Action) != Str("grant") {
        reply := ProcessRevocation(lib, call, grant);
        return;
      }
      if Get(grant.payload, Key.Status) != Str("active") {
        return Reply(false, "grant_" + Text(lib, Get(grant.payload, Key.Status)));
      }
      var importKey := ImportKey(grant);
      if importKey in processedKeys { return Reply(true, "duplicate_skipped"); }
      var verified := VerifyAccess(grant, call.tower);
      if verified.None? { return Reply(false, "tower_verify_failed"); }
      if !Matches(lib, grant) { return Reply(false, "agent_connect_mismatch"); }
      var validation := Validate(lib, Scoped(lib, grant));
      if validation.None? { return Reply(false, "import_failed"); }
      if call.manager.importError.Some? { return Reply(false, call.manager.importError.value); }
      processedKeys := processedKeys + {importKey};
      if call.manager.ignoredLocally { return Reply(true, "locally_disconnected"); }
      if call.manager.staleDiscoveryEvent { return Reply(true, "stale_replacement_skipped"); }
      if call.manager.syncError.Some? { return Reply(false, call.manager.syncError.value); }
      return Reply(true, "imported");
    }

    method ProcessRevocation(lib: Library, call: Call, grant: Grant) returns (reply: Reply)
      modifies this
      ensures RevocationKey(lib, grant) in old(processedKeys) ==>
                reply == Reply(true, "duplicate_skipped") && processedKeys == old(processedKeys)
      ensures RevocationKey(lib, grant) !in old(processedKeys) ==>
                reply == RevocationReply(call, grant) &&
                processedKeys == old(processedKeys) + if Revokes(call, grant) then {RevocationKey(lib, grant)} else {}
    {
      var revocationKey := RevocationKey(lib, grant);
      if revocationKey in processedKeys { return Reply(true, "duplicate_skipped"); }
      var verification := VerifyRevocation(grant, call.tower);
      if verification.None? { return Reply(false, "tower_revocation_verify_failed"); }
      if call.manager.handleError.Some? { return Reply(false, call.manager.handleError.value); }
      if !verification.value.confirmed {
        return Reply(false, if verification.value.result == AccessActive then "revocation_unconfirmed_access_active"
                            else "revocation_unconfirmed");
      }
      if call.manager.revocationSyncThrows { return Rejected; }
      processedKeys := processedKeys + {revocationKey};
      return Reply(true, "revocation_confirmed");
    }
  }

  // ----- what a completed import has passed -----

  /** What a grant has passed by the time its import completes. */
  ghost predicate Checked(lib: Library, call: Call, grant: Grant) {
    && SaysWhatPayloadSays(lib, grant) && IssuerAuthorized(grant, call)
    && Get(grant.payload, Key.Action) == Str("grant") && Get(grant.payload, Key.Status) == Str("active")
    && Access(grant, call.tower).Some? && Matches(lib, grant)
    && Validate(lib, Scoped(lib, grant)).Some?
    && SameIdentities(lib, grant, Validate(lib, Scoped(lib, grant)).value)
  }

  lemma DecodedImportWasChecked(lib: Library, call: Call, grant: Grant, processedKeys: set<string>)
    requires SaysWhatPayloadSays(lib, grant) && StartDecoded(lib, call, grant, processedKeys).Importing?
    requires Imports(lib, call, grant)
    ensures Checked(lib, call, grant) && ImportKey(grant) !in processedKeys
  {
    hide Matches, Validate, Access, SaysWhatPayloadSays, SameIdentities;
    ImportedIsVerified(lib, grant);
  }

  /** Importing to completion means decode, issuer, status, Tower and package checks all passed. */
  lemma CompletedImportWasChecked(lib: Library, call: Call, processedKeys: set<string>)
    requires var started := Start(lib, call, processedKeys);
             started.Importing? && Finish(lib, call, started).1.Some?
    ensures var grant := Start(lib, call, processedKeys).grant;
            DecodeCall(lib, call) == Ok(grant) && Checked(lib, call, grant) && ImportKey(grant) !in processedKeys
  {
    hide Decode, Matches, Validate, Access, SaysWhatPayloadSays, SameIdentities;
    DecodedSaysWhatPayloadSays(lib, call.event, call.recipientNpub, call.now);
    DecodedImportWasChecked(lib, call, DecodeCall(lib, call).value, processedKeys);
  }

  lemma KeyingKeeps(lib: Library, event: Event, payload: Json, signer: string, recipientNpub: string, key: Key)
    requires payload.Obj? && !key.DedupeKey? && !key.GrantId?
    ensures Get(GrantOf(lib, event, payload, signer, recipientNpub).payload, key) == Get(payload, key)
  {
    hide ReadTags;
  }

  /** An event that decodes decodes at any other time as well, unless it announces access that has expired by then. */
  lemma LaterDecoding(lib: Library, event: Event, recipientNpub: string, now: int, later: int)
    requires Decode(lib, event, recipientNpub, now).Ok?
    ensures var grant := Decode(lib, event, recipientNpub, now).value;
            Decode(lib, event, recipientNpub, later) ==
            if Get(grant.payload, Key.Action) == Str("grant") && Expired(lib, grant.payload, later)
            then Err("stale_event") else Ok(grant)
  {
    hide CheckEnvelope, ParsePayload, TagsAgree, ReadTags, Get, Set;
    var payload := ParsePayload(lib, lib.parse(event.plaintext.value).value).value;
    KeyingKeeps(lib, event, payload, CheckEnvelope(lib, event, recipientNpub).value, recipientNpub, Key.Action);
    KeyingKeeps(lib, event, payload, CheckEnvelope(lib, event, recipientNpub).value, recipientNpub, Key.ExpiresAt);
    hide GrantOf;
  }

  /** An event decodes to the same grant whenever it decodes. */
  lemma DecodingIgnoresTime(lib: Library, event: Event, recipientNpub: string, now: int, later: int)
    requires Decode(lib, event, recipientNpub, now).Ok? && Decode(lib, event, recipientNpub, later).Ok?
    ensures Decode(lib, event, recipientNpub, now) == Decode(lib, event, recipientNpub, later)
  {
    LaterDecoding(lib, event, recipientNpub, now, later);
    hide Decode, Expired;
  }

  /**
   * A later call for the event, at whatever time, is refused as stale once the access it announces has expired; before
   * that it is skipped exactly when the import went through. A failure before the import is tried again, but a failure
   * of the synchronisation that follows the import is not.
   */
  lemma RetriedExactlyWhenNotImported(lib: Library, call: Call, retry: Call, processedKeys: set<string>)
    requires Start(lib, call, processedKeys).Importing?
    requires retry.event == call.event && retry.recipientNpub == call.recipientNpub
    requires retry.managedByNpub == call.managedByNpub && retry.isAuthorizedIssuer == call.isAuthorizedIssuer
    ensures var (reply, key) := Finish(lib, call, Start(lib, call, processedKeys));
            var again := Start(lib, retry, processedKeys + Recorded(key));
            && (key.None? ==> !reply.ok)
            && again ==
               if Expired(lib, Start(lib, call, processedKeys).grant.payload, retry.now) then
                 Replied(Reply(false, "stale_event"))
               else if key.None? then Start(lib, call, processedKeys)
               else Replied(Reply(true, "duplicate_skipped"))
  {
    LaterDecoding(lib, call.event, call.recipientNpub, call.now, retry.now);
    hide Decode, Matches, Validate, Scoped, Access, Expired;
  }

  // ----- calls in flight at the same time -----

  datatype Flight = Flight(call: Call, started: Started)

  datatype Step =
    /** a call begins and gets as far as its first question to Tower */
    | Begin(id: nat, call: Call)
    /** it runs to its end */
    | End(id: nat)

  datatype Runtime = Runtime(processed: set<string>, inFlight: map<nat, Flight>, imports: seq<Flight>)

  const EMPTY := Runtime({}, map[], [])

  predicate Enabled(s: Runtime, step: Step) {
    match step
    case Begin(id, _) => id !in s.inFlight
    case End(id) => id in s.inFlight
  }

  function EndFlight(lib: Library, s: Runtime, id: nat, flight: Flight): Runtime {
    var key := Finish(lib, flight.call, flight.started).1;
    Runtime(s.processed + Recorded(key), s.inFlight - {id},
          if flight.started.Importing? && key.Some? then s.imports + [flight] else s.imports)
  }

  function Apply(lib: Library, s: Runtime, step: Step): Runtime
    requires Enabled(s, step)
  {
    match step
    case Begin(id, call) =>
      var flight := Flight(call, Start(lib, call, s.processed));
      if flight.started.Replied? then s else s.(inFlight := s.inFlight[id := flight])
    case End(id) => EndFlight(lib, s, id, s.inFlight[id])
  }

  ghost predicate IsRun(lib: Library, s: Runtime, steps: seq<Step>)
    decreases |steps|
  {
    steps != [] ==> Enabled(s, steps[0]) && IsRun(lib, Apply(lib, s, steps[0]), steps[1..])
  }

  ghost function Run(lib: Library, s: Runtime, steps: seq<Step>): Runtime
    requires IsRun(lib, s, steps)
    decreases |steps|
  {
    if steps == [] then s else Run(lib, Apply(lib, s, steps[0]), steps[1..])
  }

  lemma {:induction false} AppendStep(lib: Library, s: Runtime, steps: seq<Step>, step: Step)
    requires IsRun(lib, s, steps) && Enabled(Run(lib, s, steps), step)
    ensures IsRun(lib, s, steps + [step])
    ensures Run(lib, s, steps + [step]) == Apply(lib, Run(lib, s, steps), step)
    decreases |steps|
  {
    hide Apply, Enabled;
    if steps == [] {
      assert [] + [step] == [step] && [step][1..] == [];
    } else {
      assert (steps + [step])[1..] == steps[1..] + [step];
      AppendStep(lib, Apply(lib, s, steps[0]), steps[1..], step);
    }
  }

  // ----- how often one key is imported -----

  /** A flight that claims the key. */
  predicate Claims(flight: Flight, key: string) {
    !flight.started.Replied? && flight.started.key == key
  }

  /** A flight that will import under the key when it ends. */
  predicate WillImport(lib: Library, flight: Flight, key: string) {
    flight.started.Importing? && flight.started.key == key && Finish(lib, flight.call, flight.started).1.Some?
  }

  function Claimants(s: Runtime, key: string): set<nat> {
    set id <- s.inFlight | Claims(s.inFlight[id], key)
  }

  function Importers(lib: Library, s: Runtime, key: string): set<nat> {
    set id <- s.inFlight | WillImport(lib, s.inFlight[id], key)
  }

  function ImportCount(imports: seq<Flight>, key: string): nat {
    if imports == [] then 0
    else ImportCount(imports[..|imports| - 1], key) + if Claims(imports[|imports| - 1], key) then 1 else 0
  }

  /** Imports made or on their way. */
  function Made(lib: Library, s: Runtime, key: string): nat {
    ImportCount(s.imports, key) + |Importers(lib, s, key)|
  }

  /** No call that claims the key begins while another that claims it is still in flight. */
  ghost predicate OverlapFree(lib: Library, s: Runtime, steps: seq<Step>, key: string)
    requires IsRun(lib, s, steps)
    decreases |steps|
  {
    steps != [] ==>
      && (steps[0].Begin? && Claims(Flight(steps[0].call, Start(lib, steps[0].call, s.processed)), key) ==>
            Claimants(s, key) == {})
      && OverlapFree(lib, Apply(lib, s, steps[0]), steps[1..], key)
  }

  /** At no moment are two calls in flight that will both import under the key. */
  ghost predicate NeverTwo(lib: Library, s: Runtime, steps: seq<Step>, key: string)
    requires IsRun(lib, s, steps)
    decreases |steps|
  {
    |Importers(lib, s, key)| <= 1 && (steps != [] ==> NeverTwo(lib, Apply(lib, s, steps[0]), steps[1..], key))
  }

  /** An imported key is recorded, and every flight knew its key was not when it began. */
  ghost predicate ImportsRecorded(s: Runtime, key: string) {
    ImportCount(s.imports, key) > 0 ==> key in s.processed
  }

  lemma CountOne(imports: seq<Flight>, flight: Flight, key: string)
    ensures ImportCount(imports + [flight], key) == ImportCount(imports, key) + if Claims(flight, key) then 1 else 0
  {
    hide Claims;
    assert (imports + [flight])[..|imports|] == imports;
  }

  lemma FreshStart(lib: Library, call: Call, processed: set<string>, key: string)
    requires Claims(Flight(call, Start(lib, call, processed)), key)
    ensures key !in processed
  {
    hide Decode, IssuerAuthorized, ImportKey, RevocationKey;
  }

  lemma FinishRecords(lib: Library, flight: Flight, key: string)
    requires WillImport(lib, flight, key)
    ensures Finish(lib, flight.call, flight.started).1 == Some(key) && Claims(flight, key)
  {
    hide Imports, Revokes, ImportReply, RevocationReply;
  }

  lemma ImportingFinish(lib: Library, flight: Flight)
    requires flight.started.Importing? && Finish(lib, flight.call, flight.started).1.Some?
    ensures Finish(lib, flight.call, flight.started).1 == Some(flight.started.key)
    ensures forall key :: Claims(flight, key) <==> WillImport(lib, flight, key)
  {
    hide Imports, Revokes, ImportReply, RevocationReply;
  }

  lemma BeginMade(lib: Library, s: Runtime, step: Step, key: string)
    requires step.Begin? && Enabled(s, step)
    ensures var after, flight := Apply(lib, s, step), Flight(step.call, Start(lib, step.call, s.processed));
            && Importers(lib, after, key) ==
                 Importers(lib, s, key) + (if WillImport(lib, flight, key) then {step.id} else {})
            && Claimants(after, key) == Claimants(s, key) + (if Claims(flight, key) then {step.id} else {})
            && step.id !in Importers(lib, s, key)
            && after.imports == s.imports && after.processed == s.processed
  {
    hide Start, Finish;
  }

  lemma EndMade(lib: Library, s: Runtime, step: Step, key: string)
    requires step.End? && Enabled(s, step)
    ensures var after, flight := Apply(lib, s, step), s.inFlight[step.id];
            && Importers(lib, after, key) == Importers(lib, s, key) - {step.id}
            && Claimants(after, key) == Claimants(s, key) - {step.id}
            && ImportCount(after.imports, key) ==
                 ImportCount(s.imports, key) + (if WillImport(lib, flight, key) then 1 else 0)
            && s.processed <= after.processed && (WillImport(lib, flight, key) ==> key in after.processed)
            && (step.id in Importers(lib, s, key) <==> WillImport(lib, flight, key))
  {
    hide Start, Finish;
    var flight := s.inFlight[step.id];
    CountOne(s.imports, flight, key);
    if flight.started.Importing? && Finish(lib, flight.call, flight.started).1.Some? {
      ImportingFinish(lib, flight);
    }
  }

  /** A step loses no import made or on its way; only a beginning importer adds one, and only before any is made. */
  lemma StepMade(lib: Library, s: Runtime, step: Step, key: string)
    requires Enabled(s, step) && ImportsRecorded(s, key)
    ensures var after := Apply(lib, s, step);
            && ImportsRecorded(after, key)
            && Made(lib, s, key) <= Made(lib, after, key)
            && (Made(lib, after, key) == Made(lib, s, key) || ImportCount(after.imports, key) == 0)
  {
    hide Apply, Finish, Start, Importers, Claimants;
    match step
    case Begin(id, call) =>
      BeginMade(lib, s, step, key);
      var flight := Flight(call, Start(lib, call, s.processed));
      if WillImport(lib, flight, key) {
        FinishRecords(lib, flight, key);
        FreshStart(lib, call, s.processed, key);
      }
    case End(id) =>
      EndMade(lib, s, step, key);
  }

  /** Along a run in which never two importers meet, at most one import is made or on its way. */
  lemma {:induction false} AtMostOneMade(lib: Library, s: Runtime, steps: seq<Step>, key: string)
    requires IsRun(lib, s, steps) && NeverTwo(lib, s, steps, key)
    requires ImportsRecorded(s, key) && Made(lib, s, key) <= 1
    ensures ImportCount(Run(lib, s, steps).imports, key) <= 1
    decreases |steps|
  {
    hide Apply, Enabled, Importers, ImportsRecorded;
    if steps != [] {
      StepMade(lib, s, steps[0], key);
      AtMostOneMade(lib, Apply(lib, s, steps[0]), steps[1..], key);
    }
  }

  lemma {:induction false} MadeStays(lib: Library, s: Runtime, steps: seq<Step>, key: string)
    requires IsRun(lib, s, steps) && ImportsRecorded(s, key)
    ensures Made(lib, s, key) <= Made(lib, Run(lib, s, steps), key)
    decreases |steps|
  {
    hide Apply, Enabled, ImportsRecorded, Made;
    if steps != [] {
      StepMade(lib, s, steps[0], key);
      MadeStays(lib, Apply(lib, s, steps[0]), steps[1..], key);
    }
  }

  lemma {:induction false} TwoMade(lib: Library, s: Runtime, steps: seq<Step>, key: string)
    requires IsRun(lib, s, steps) && ImportsRecorded(s, key) && !NeverTwo(lib, s, steps, key)
    ensures Made(lib, Run(lib, s, steps), key) >= 2
    decreases |steps|
  {
    hide Apply, Enabled, ImportsRecorded, Importers;
    if |Importers(lib, s, key)| > 1 {
      MadeStays(lib, s, steps, key);
    } else {
      StepMade(lib, s, steps[0], key);
      TwoMade(lib, Apply(lib, s, steps[0]), steps[1..], key);
    }
  }

  /**
   * Of all runs that leave no call for the key in flight, those that import it more than once are exactly those in
   * which, at some moment, two calls that will import under it are in flight together.
   */
  lemma ImportedTwiceExactly(lib: Library, steps: seq<Step>, key: string)
    requires IsRun(lib, EMPTY, steps) && Claimants(Run(lib, EMPTY, steps), key) == {}
    ensures ImportCount(Run(lib, EMPTY, steps).imports, key) >= 2 <==> !NeverTwo(lib, EMPTY, steps, key)
  {
    hide Apply, Enabled, NeverTwo, IsRun, Run;
    if NeverTwo(lib, EMPTY, steps, key) {
      AtMostOneMade(lib, EMPTY, steps, key);
    } else {
      TwoMade(lib, EMPTY, steps, key);
      ImportersClaim(lib, Run(lib, EMPTY, steps), key);
    }
  }

  lemma ImportersClaim(lib: Library, s: Runtime, key: string)
    ensures Importers(lib, s, key) <= Claimants(s, key)
  {
    hide Finish;
  }

  /** Calls that do not overlap are never two at once. */
  lemma {:induction false} OverlapFreeNeverTwo(lib: Library, s: Runtime, steps: seq<Step>, key: string)
    requires IsRun(lib, s, steps) && OverlapFree(lib, s, steps, key) && |Claimants(s, key)| <= 1
    ensures NeverTwo(lib, s, steps, key)
    decreases |steps|
  {
    hide Apply, Enabled, Importers, Claimants, Start;
    ImportersClaim(lib, s, key);
    Smaller(Importers(lib, s, key), Claimants(s, key));
    if steps != [] {
      if steps[0].Begin? {
        BeginMade(lib, s, steps[0], key);
      } else {
        EndMade(lib, s, steps[0], key);
        Smaller(Claimants(s, key) - {steps[0].id}, Claimants(s, key));
      }
      OverlapFreeNeverTwo(lib, Apply(lib, s, steps[0]), steps[1..], key);
    }
  }

  lemma Smaller(a: set<nat>, b: set<nat>)
    requires a <= b
    ensures |a| <= |b|
  {
    assert b == a + (b - a);
  }

  /** However other calls interleave: a key whose own calls do not overlap is imported at most once. */
  lemma KeyImportedOnce(lib: Library, steps: seq<Step>, key: string)
    requires IsRun(lib, EMPTY, steps) && OverlapFree(lib, EMPTY, steps, key)
    ensures ImportCount(Run(lib, EMPTY, steps).imports, key) <= 1
  {
    hide Apply, Enabled, IsRun, Run, OverlapFree, NeverTwo;
    OverlapFreeNeverTwo(lib, EMPTY, steps, key);
    AtMostOneMade(lib, EMPTY, steps, key);
  }

  // ----- what was imported, whatever interleaves -----

  /** A flight past its start: what it decoded to, and what importing it would take. */
  ghost predicate WellStarted(lib: Library, flight: Flight) {
    match flight.started
    case Replied(_) => false
    case Importing(grant, key) =>
      DecodeCall(lib, flight.call) == Ok(grant) && key == ImportKey(grant) &&
      (Imports(lib, flight.call, grant) ==> Checked(lib, flight.call, grant))
    case Revoking(grant, key) => DecodeCall(lib, flight.call) == Ok(grant) && key == RevocationKey(lib, grant)
  }

  ghost predicate WasImported(lib: Library, flight: Flight) {
    WellStarted(lib, flight) && flight.started.Importing? && Imports(lib, flight.call, flight.started.grant)
  }

  ghost predicate AllWellStarted(lib: Library, s: Runtime) {
    && (forall id <- s.inFlight :: WellStarted(lib, s.inFlight[id]))
    && (forall flight <- s.imports :: WasImported(lib, flight))
  }

  lemma StartIsWell(lib: Library, call: Call, processed: set<string>)
    requires !Start(lib, call, processed).Replied?
    ensures WellStarted(lib, Flight(call, Start(lib, call, processed)))
  {
    hide Decode, Matches, Validate, Scoped, Access, SaysWhatPayloadSays, SameIdentities;
    if Start(lib, call, processed).Importing? && Imports(lib, call, DecodeCall(lib, call).value) {
      CompletedImportWasChecked(lib, call, processed);
    }
  }

  lemma EndedImport(lib: Library, flight: Flight)
    requires WellStarted(lib, flight) && flight.started.Importing?
    requires Finish(lib, flight.call, flight.started).1.Some?
    ensures WasImported(lib, flight)
  {
    hide WellStarted, Imports, ImportReply;
  }

  lemma StepKeepsWellStarted(lib: Library, s: Runtime, step: Step)
    requires Enabled(s, step) && AllWellStarted(lib, s)
    ensures AllWellStarted(lib, Apply(lib, s, step))
  {
    hide Start, Finish, WellStarted, WasImported;
    match step
    case Begin(id, call) =>
      if !Start(lib, call, s.processed).Replied? { StartIsWell(lib, call, s.processed); }
    case End(id) =>
      var flight := s.inFlight[id];
      if flight.started.Importing? && Finish(lib, flight.call, flight.started).1.Some? { EndedImport(lib, flight); }
  }

  lemma {:induction false} RunKeepsWellStarted(lib: Library, s: Runtime, steps: seq<Step>)
    requires IsRun(lib, s, steps) && AllWellStarted(lib, s)
    ensures AllWellStarted(lib, Run(lib, s, steps))
    decreases |steps|
  {
    hide Apply, Enabled, AllWellStarted;
    if steps != [] {
      StepKeepsWellStarted(lib, s, steps[0]);
      RunKeepsWellStarted(lib, Apply(lib, s, steps[0]), steps[1..]);
    }
  }

  lemma SameEventSameKey(lib: Library, f: Flight, g: Flight)
    requires WasImported(lib, f) && WasImported(lib, g)
    requires f.call.event == g.call.event && f.call.recipientNpub == g.call.recipientNpub
    ensures f.started.key == g.started.key
  {
    hide Decode, Imports, Checked;
    DecodingIgnoresTime(lib, f.call.event, f.call.recipientNpub, f.call.now, g.call.now);
  }

  lemma {:induction false} CountAtLeast(imports: seq<Flight>, key: string, i: nat)
    requires i < |imports| && Claims(imports[i], key)
    ensures ImportCount(imports, key) >= 1
  {
    hide Claims;
    if i < |imports| - 1 {
      CountAtLeast(imports[..|imports| - 1], key, i);
    }
  }

  lemma {:induction false} CountTwo(imports: seq<Flight>, key: string, i: nat, j: nat)
    requires i < j < |imports| && Claims(imports[i], key) && Claims(imports[j], key)
    ensures ImportCount(imports, key) >= 2
  {
    hide Claims;
    var fewer := imports[..|imports| - 1];
    if j < |imports| - 1 {
      CountTwo(fewer, key, i, j);
    } else {
      CountAtLeast(fewer, key, i);
    }
  }

  /**
   * In every run whatsoever, what is imported passed all its checks, and an event that is imported twice for one
   * recipient had calls of its own that overlapped.
   */
  lemma EachEventImportedOnce(lib: Library, steps: seq<Step>)
    requires IsRun(lib, EMPTY, steps)
    ensures var imports := Run(lib, EMPTY, steps).imports;
            (forall i | 0 <= i < |imports| ::
               imports[i].started.Importing? && Checked(lib, imports[i].call, imports[i].started.grant)) &&
            (forall i, j | 0 <= i < j < |imports| ::
               imports[i].call.event == imports[j].call.event &&
               imports[i].call.recipientNpub == imports[j].call.recipientNpub ==>
                 !OverlapFree(lib, EMPTY, steps, imports[i].started.key))
  {
    hide Apply, Enabled, IsRun, Run, OverlapFree, Checked, Imports, DecodeCall;
    RunKeepsWellStarted(lib, EMPTY, steps);
    var imports := Run(lib, EMPTY, steps).imports;
    forall i | 0 <= i < |imports| ensures WasImported(lib, imports[i]) {
      assert imports[i] in imports;
    }
    forall i, j | 0 <= i < j < |imports| && imports[i].call.event == imports[j].call.event &&
        imports[i].call.recipientNpub == imports[j].call.recipientNpub
      ensures !OverlapFree(lib, EMPTY, steps, imports[i].started.key)
    {
      SameEventSameKey(lib, imports[i], imports[j]);
      CountTwo(imports, imports[i].started.key, i, j);
      if OverlapFree(lib, EMPTY, steps, imports[i].started.key) {
        KeyImportedOnce(lib, steps, imports[i].started.key);
      }
    }
  }

  /** A call that nothing interleaves with leaves the keys as `Process` does. */
  lemma ProcessIsBeginThenEnd(lib: Library, s: Runtime, id: nat, call: Call)
    requires id !in s.inFlight
    ensures var begun := Apply(lib, s, Begin(id, call));
            var ended := if id in begun.inFlight then Apply(lib, begun, End(id)) else begun;
            ended.processed == s.processed + Recorded(Finish(lib, call, Start(lib, call, s.processed)).1) &&
            ended.inFlight == s.inFlight
  {
    hide DecodeCall, StartDecoded, Imports, Revokes, ImportReply, RevocationReply;
  }

  lemma OneStep(lib: Library, s: Runtime, step: Step, rest: seq<Step>)
    requires Enabled(s, step) && IsRun(lib, Apply(lib, s, step), rest)
    ensures IsRun(lib, s, [step] + rest)
    ensures Run(lib, s, [step] + rest) == Run(lib, Apply(lib, s, step), rest)
  {
    hide Apply, Enabled;
    assert ([step] + rest)[1..] == rest;
  }

  lemma EndRecordsImport(lib: Library, s: Runtime, id: nat, flight: Flight)
    requires id in s.inFlight && s.inFlight[id] == flight
    requires flight.started.Importing? && Finish(lib, flight.call, flight.started).1.Some?
    ensures Apply(lib, s, End(id)).imports == s.imports + [flight]
    ensures Apply(lib, s, End(id)).inFlight == s.inFlight - {id}
  {
    hide DecodeCall, StartDecoded, Imports, ImportReply, RevocationReply;
  }

  /** Two overlapping calls for one importable event import it twice. */
  lemma OverlapImportsTwice(lib: Library, call: Call)
    requires Start(lib, call, {}).Importing? && Finish(lib, call, Start(lib, call, {})).1.Some?
    ensures var steps := [Begin(0, call)] + ([Begin(1, call)] + ([End(0)] + ([End(1)] + [])));
            IsRun(lib, EMPTY, steps) &&
            Run(lib, EMPTY, steps).imports == [Flight(call, Start(lib, call, {})), Flight(call, Start(lib, call, {}))]
  {
    hide DecodeCall, StartDecoded, Imports, ImportReply, RevocationReply, Finish, EndFlight;
    var flight := Flight(call, Start(lib, call, {}));
    var s1 := Apply(lib, EMPTY, Begin(0, call));
    var s2 := Apply(lib, s1, Begin(1, call));
    assert s2 == Runtime({}, map[0 := flight, 1 := flight], []);
    var s3 := Apply(lib, s2, End(0));
    EndRecordsImport(lib, s2, 0, flight);
    EndRecordsImport(lib, s3, 1, flight);
    OneStep(lib, s3, End(1), []);
    OneStep(lib, s2, End(0), [End(1)] + []);
    OneStep(lib, s1, Begin(1, call), [End(0)] + ([End(1)] + []));
    OneStep(lib, EMPTY, Begin(0, call), [Begin(1, call)] + ([End(0)] + ([End(1)] + [])));
  }
}

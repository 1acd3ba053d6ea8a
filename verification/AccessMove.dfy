/** Reconfiguring the Access application of a local entry, webhook registration included. */
module AccessMove {
  import opened Text
  import opened EntityRegistry
  import opened SiteIdentity
  import opened ConfigEntries
  import opened Rekey
  import opened RekeyEntities
  import opened ConfigFlow

  const DEFAULT_ACCESS_PORT := 12445

  const WEBHOOK_KEYS := {WebhookId, WebhookEndpointId, WebhookSecret}
  const ACCESS_KEYS := {AccessToken, AccessPort} + WEBHOOK_KEYS

  /** What the user typed into the local reconfigure form. */
  datatype Input = Input(host: string, apiKey: string, verifySsl: bool, accessToken: Value, accessPort: Option<int>, clearToken: bool)

  // ---------- Planning ----------

  datatype Cleanup = NoCleanup | Clear | Move

  /** The Access fields to store and the webhook cleanup they need, or a form error. */
  datatype AccessPlan = FormError(error: string) | Store(fields: Data, cleanup: Cleanup)

  predicate HasWebhook(data: Data) {
    exists key :: key in WEBHOOK_KEYS && key in data
  }

  function TypedToken(input: Input): Option<string> {
    match input.accessToken
    case Str(text) => if Strip(text) == "" then None else Some(Strip(text))
    case _ => None
  }

  /** The user asked to drop the Access token and typed no other. */
  predicate Clears(input: Input) {
    input.clearToken && TypedToken(input).None?
  }

  function NewPort(input: Input): int {
    if input.accessPort.Some? then input.accessPort.value else DEFAULT_ACCESS_PORT
  }

  /** `_access_server_moved`; `hostKey` is the host name of a host or URL, if usable. */
  function ServerMoved(data: Data, input: Input, hostKey: Value -> Option<string>): bool {
    hostKey(Get(data, Host)) != hostKey(Str(input.host))
    || (if AccessPort in data then data[AccessPort] else Number(DEFAULT_ACCESS_PORT)) != Number(NewPort(input))
  }

  /** The token to validate: the typed one, or on a move the stored one. */
  function TokenToUse(data: Data, input: Input, moved: bool): Option<Value> {
    if TypedToken(input).Some? then Some(Str(TypedToken(input).value))
    else if moved && Truthy(Get(data, AccessToken)) then Some(Get(data, AccessToken))
    else None
  }

  function Stored(data: Data, keys: set<Setting>): Data {
    map key | key in keys && key in data :: data[key]
  }

  /** `_async_reconfigure_access`; `error` is what validating the token answered, if anything. */
  function PlanAccess(data: Data, input: Input, hostKey: Value -> Option<string>, error: Option<string>): AccessPlan {
    var stored := Truthy(Get(data, AccessToken));
    var moved := ServerMoved(data, input, hostKey);
    if Clears(input) then
      Store(map[], if stored && HasWebhook(data) then Clear else NoCleanup)
    else
      var token := TokenToUse(data, input, moved);
      if token.None? then Store(Stored(data, ACCESS_KEYS), NoCleanup)
      else if error.Some? then FormError(error.value)
      else
        var fields := map[AccessToken := token.value, AccessPort := Number(NewPort(input))];
        if stored && HasWebhook(data) && moved then Store(fields, Move)
        else Store(fields + Stored(data, WEBHOOK_KEYS), NoCleanup)
  }

  /** Changing the token on the same server keeps every stored webhook setting. */
  lemma RotationKeepsWebhook(data: Data, input: Input, hostKey: Value -> Option<string>)
    requires TypedToken(input).Some? && !ServerMoved(data, input, hostKey)
    ensures var plan := PlanAccess(data, input, hostKey, None);
      && plan.Store? && plan.cleanup == NoCleanup
      && Get(plan.fields, AccessToken) == Str(TypedToken(input).value)
      && (forall key :: key in WEBHOOK_KEYS ==> Get(plan.fields, key) == Get(data, key))
  {
    hide TypedToken, ServerMoved;
  }

  /** The server moved exactly if its host name or its port differs; 12445 stands for a missing port on either side. */
  lemma MovedExactly(data: Data, input: Input, hostKey: Value -> Option<string>)
    ensures ServerMoved(data, input, hostKey)
            <==> || hostKey(Get(data, Host)) != hostKey(Str(input.host))
                 || (AccessPort in data && input.accessPort.Some? && data[AccessPort] != Number(input.accessPort.value))
                 || (AccessPort in data && input.accessPort.None? && data[AccessPort] != Number(12445))
                 || (AccessPort !in data && input.accessPort.Some? && input.accessPort.value != 12445)
  {
  }

  /** The token typed is what stands between surrounding spaces, unless that is nothing. */
  lemma TypedBetweenSpaces(input: Input, before: string, core: string, after: string)
    requires AllSpace(before) && Trimmed(core) && AllSpace(after) && input.accessToken == Str(before + core + after)
    ensures TypedToken(input) == if core == "" then None else Some(core)
  {
    hide Strip;
    StripOfCore(before, core, after);
  }

  /** A token has to be validated: one is typed, or the server moves with the stored one. */
  predicate Validates(data: Data, input: Input, hostKey: Value -> Option<string>) {
    TypedToken(input).Some? || (!input.clearToken && ServerMoved(data, input, hostKey) && Truthy(Get(data, AccessToken)))
  }

  /** The Access token and port that `saved` must hold. */
  ghost predicate HoldsAccess(data: Data, input: Input, validates: bool, saved: Data) {
    if validates then
      && AccessToken in saved
      && saved[AccessToken] == (if TypedToken(input).Some? then Str(TypedToken(input).value) else Get(data, AccessToken))
      && AccessPort in saved
      && saved[AccessPort] == Number(if input.accessPort.Some? then input.accessPort.value else 12445)
    else if input.clearToken then AccessToken !in saved && AccessPort !in saved
    else
      forall key :: key in {AccessToken, AccessPort} ==>
                      (key in saved <==> key in data) && (key in saved ==> saved[key] == data[key])
  }

  /**
   * The form is refused exactly if a token has to be validated and is not valid. Otherwise
   * the plan holds the validated token and port, none if they are cleared, or the stored ones.
   */
  lemma PlannedAccess(data: Data, input: Input, hostKey: Value -> Option<string>, error: Option<string>)
    ensures var plan := PlanAccess(data, input, hostKey, error);
      && (plan.FormError? <==> Validates(data, input, hostKey) && error.Some?)
      && (plan.FormError? ==> error == Some(plan.error))
      && (plan.Store? ==> HoldsAccess(data, input, Validates(data, input, hostKey), plan.fields) && plan.fields.Keys <= ACCESS_KEYS)
  {
    hide TypedToken, ServerMoved;
  }

  /** The stored webhook settings must go: their token is cleared, or their server left with a token to retire them. */
  predicate Retires(data: Data, input: Input, hostKey: Value -> Option<string>) {
    (input.clearToken && TypedToken(input).None?) || (ServerMoved(data, input, hostKey) && Truthy(Get(data, AccessToken)))
  }

  /** Of `data`'s webhook settings, `saved` has exactly those that need not go, unchanged. */
  ghost predicate KeepsUnretired(data: Data, saved: Data, retires: bool) {
    forall key :: key in WEBHOOK_KEYS ==>
                    && (key in saved <==> key in data && !retires)
                    && (key in saved ==> saved[key] == data[key])
  }

  /**
   * Every accepted plan keeps the webhook settings exactly if they need not be retired. A
   * move thus carries them to the new server exactly if no token was stored with them.
   */
  lemma MoveDropsWebhook(data: Data, input: Input, hostKey: Value -> Option<string>, error: Option<string>)
    ensures var plan := PlanAccess(data, input, hostKey, error);
      plan.Store? ==>
        && KeepsUnretired(data, plan.fields, Retires(data, input, hostKey))
        && (HasWebhook(plan.fields) <==> HasWebhook(data) && !Retires(data, input, hostKey))
        && (plan.cleanup == NoCleanup <==> !(HasWebhook(data) && Truthy(Get(data, AccessToken)) && Retires(data, input, hostKey)))
        && (plan.cleanup != NoCleanup ==> plan.cleanup == if Clears(input) then Clear else Move)
  {
    hide TypedToken, ServerMoved;
    var plan := PlanAccess(data, input, hostKey, error);
    if plan.Store? {
      PlannedKeys(data, input, hostKey, error);
      SameWebhook(data, plan.fields, Retires(data, input, hostKey));
    }
  }

  lemma PlannedKeys(data: Data, input: Input, hostKey: Value -> Option<string>, error: Option<string>)
    requires PlanAccess(data, input, hostKey, error).Store?
    ensures KeepsUnretired(data, PlanAccess(data, input, hostKey, error).fields, Retires(data, input, hostKey))
  {
    hide TypedToken, ServerMoved;
    if !HasWebhook(data) {
      assert Stored(data, WEBHOOK_KEYS) == map[];
    }
  }

  lemma SameWebhook(data: Data, saved: Data, retires: bool)
    requires KeepsUnretired(data, saved, retires)
    ensures HasWebhook(saved) <==> HasWebhook(data) && !retires
  {
    if HasWebhook(data) && !retires {
      var key :| key in WEBHOOK_KEYS && key in data;
      assert key in saved;
    }
  }

  /** Such a carried-over registration: a stored webhook, no stored token, a new host, whatever token is typed. */
  lemma StaleWebhookExample(hostKey: Value -> Option<string>, token: Value)
    requires hostKey(Str("old")) != hostKey(Str("new"))
    ensures var data := map[Host := Str("old"), WebhookSecret := Str("s")];
      var plan := PlanAccess(data, Input("new", "k", false, token, None, false), hostKey, None);
      plan.Store? && plan.cleanup == NoCleanup && Get(plan.fields, WebhookSecret) == Str("s")
  {
    hide TypedToken, ServerMoved;
    var data := map[Host := Str("old"), WebhookSecret := Str("s")];
    var input := Input("new", "k", false, token, None, false);
    MoveDropsWebhook(data, input, hostKey, None);
    assert WebhookSecret in data && !Retires(data, input, hostKey);
  }

  // ---------- Retiring the webhook ----------

  /** Home Assistant's registered receivers, the console's endpoints, and the reloads asked for. */
  class WebhookHost {
    var receivers: set<string>
    // Endpoints that still exist on the console the entry's settings point to.
    var endpoints: set<string>
    var reloads: seq<string>

    constructor (receivers: set<string>, endpoints: set<string>)
      ensures this.receivers == receivers && this.endpoints == endpoints && reloads == []
    {
      this.receivers, this.endpoints, this.reloads := receivers, endpoints, [];
    }

    /** The console answered the delete, answered not-found, failed, or did not answer in time. */
    method DeleteEndpoint(endpointId: string) returns (gone: bool)
      modifies this`endpoints
      ensures endpoints == old(endpoints) || endpoints == old(endpoints) - {endpointId}
      ensures gone ==> endpointId !in endpoints
    {
      var deletes: bool := *;
      if deletes {
        endpoints := endpoints - {endpointId};
      }
      var answered: bool := *;
      gone := answered && endpointId !in endpoints;
    }
  }

  function StoredText(data: Data, key: Setting): Option<string> {
    match Get(data, key)
    case Str(text) => if text == "" then None else Some(text)
    case _ => None
  }

  /** A setting counts if it is a text and not empty. */
  lemma StoredTextIs(data: Data, key: Setting, text: string)
    ensures StoredText(data, key) == Some(text) <==> key in data && data[key] == Str(text) && text != ""
  {
  }

  ghost predicate EndpointGone(host: WebhookHost, data: Data)
    reads host
  {
    StoredText(data, WebhookEndpointId).Some? ==> StoredText(data, WebhookEndpointId).value !in host.endpoints
  }

  ghost function Unregistered(receivers: set<string>, data: Data): set<string> {
    if StoredText(data, WebhookId).Some? then receivers - {StoredText(data, WebhookId).value} else receivers
  }

  method Unregister(host: WebhookHost, data: Data)
    modifies host`receivers
    ensures host.receivers == Unregistered(old(host.receivers), data)
  {
    var id := StoredText(data, WebhookId);
    if id.Some? {
      host.receivers := host.receivers - {id.value};
    }
  }

  /** `_async_delete_stored_endpoint`; the stored settings may not make a usable client. */
  method DeleteStoredEndpoint(host: WebhookHost, data: Data) returns (gone: bool)
    modifies host`endpoints
    ensures gone ==> EndpointGone(host, data)
    ensures StoredText(data, WebhookEndpointId).None? ==> gone
    ensures StoredText(data, WebhookEndpointId).Some? && StoredText(data, AccessToken).None? ==> !gone
  {
    var endpointId := StoredText(data, WebhookEndpointId);
    if endpointId.None? {
      return true;
    }
    var validSettings: bool := *;
    if StoredText(data, AccessToken).None? || !validSettings {
      return false;
    }
    gone := host.DeleteEndpoint(endpointId.value);
  }

  /** `async_remove_access_webhook`. */
  method RemoveWebhook(host: WebhookHost, data: Data, keepReceiverOnFailure: bool) returns (deleted: bool)
    modifies host`receivers, host`endpoints
    ensures deleted ==> EndpointGone(host, data)
    ensures StoredText(data, WebhookEndpointId).None? ==> deleted
    ensures StoredText(data, WebhookEndpointId).Some? && StoredText(data, AccessToken).None? ==> !deleted
    ensures host.receivers ==
            if deleted || !keepReceiverOnFailure then Unregistered(old(host.receivers), data) else old(host.receivers)
  {
    if !keepReceiverOnFailure {
      Unregister(host, data);
    }
    deleted := DeleteStoredEndpoint(host, data);
    if keepReceiverOnFailure && deleted {
      Unregister(host, data);
    }
  }

  // ---------- Saving a local reconfigure ----------

  /** What device inspection found on the console. */
  datatype ConsoleInfo = ConsoleInfo(mac: Option<string>, id: Option<string>)

  datatype Abort = AccountMismatch | AlreadyConfigured | CannotConnect

  datatype Outcome = Aborted(reason: Abort) | Finished(save: SaveResult)

  function OrElse(a: Option<string>, b: Option<string>): Option<string> {
    if a.Some? && a.value != "" then a else b
  }

  /** The stored identity, unless it is unusable or a credential. */
  function CurrentId(data: Data, uniqueId: Option<string>, input: Input): Option<string> {
    var stored := if Truthy(Get(data, ConsoleId)) then TextOf(Get(data, ConsoleId)) else uniqueId;
    if NormalizeNamespace(stored, [TextOf(Get(data, ApiKey)), Some(input.apiKey)]).None? then None else stored
  }

  function NewId(data: Data, uniqueId: Option<string>, input: Input, info: ConsoleInfo): Option<string> {
    OrElse(info.mac, OrElse(CurrentId(data, uniqueId, input), info.id))
  }

  predicate Filled(text: Option<string>) {
    text.Some? && text.value != ""
  }

  /**
   * The identity to save: the reported hardware address, else the stored identity if it is a
   * usable namespace and no credential, else what the console reports otherwise.
   */
  lemma NewIdIs(data: Data, uniqueId: Option<string>, input: Input, info: ConsoleInfo)
    ensures var id := NewId(data, uniqueId, input, info);
      var stored := if Truthy(Get(data, ConsoleId)) then TextOf(Get(data, ConsoleId)) else uniqueId;
      var usable := NormalizeNamespace(stored, [TextOf(Get(data, ApiKey)), Some(input.apiKey)]).Some?;
      && (Filled(info.mac) ==> id == info.mac)
      && (!Filled(info.mac) && usable ==> id == stored)
      && (!Filled(info.mac) && !usable ==> id == info.id)
      && CurrentId(data, uniqueId, input) == (if usable then stored else None)
  {
    var stored := if Truthy(Get(data, ConsoleId)) then TextOf(Get(data, ConsoleId)) else uniqueId;
    hide NormalizeNamespace;
    if NormalizeNamespace(stored, [TextOf(Get(data, ApiKey)), Some(input.apiKey)]).Some? {
      UsableIsFilled(stored, [TextOf(Get(data, ApiKey)), Some(input.apiKey)]);
    }
  }

  lemma UsableIsFilled(value: Option<string>, credentials: seq<Option<string>>)
    requires NormalizeNamespace(value, credentials).Some?
    ensures Filled(value)
  {
  }

  /** The saved connection: what was typed, the identity if there is one, and Access settings; nothing else. */
  ghost predicate HoldsConnection(input: Input, id: Option<string>, saved: Data) {
    && Get(saved, ConnectionType) == Str("local") && Get(saved, Host) == Str(input.host)
    && Get(saved, ApiKey) == Str(input.apiKey) && Get(saved, VerifySsl) == Flag(input.verifySsl)
    && (ConsoleId in saved <==> Filled(id)) && (ConsoleId in saved ==> saved[ConsoleId] == Str(id.value))
    && saved.Keys <= {ConnectionType, Host, ApiKey, VerifySsl, ConsoleId} + ACCESS_KEYS
  }

  function ConnectionData(input: Input, newId: Option<string>): Data {
    var data := map[ConnectionType := Str("local"), Host := Str(input.host), ApiKey := Str(input.apiKey), VerifySsl := Flag(input.verifySsl)];
    if newId.Some? && newId.value != "" then data[ConsoleId := Str(newId.value)] else data
  }

  /** Both identities are hardware addresses, and different ones. */
  predicate Mismatch(hardwareMac: Option<string> -> Option<string>, current: Option<string>, id: Option<string>) {
    hardwareMac(current).Some? && hardwareMac(id).Some? && hardwareMac(id) != hardwareMac(current)
  }

  /** The identity is new to this entry, and another entry has it. */
  predicate Taken(store: EntryStore, entry: ConfigEntry, id: Option<string>)
    reads store, store.entries, entry
  {
    id.Some? && id.value != "" && id != entry.uniqueId
    && store.Owner(id.value).Some? && store.Owner(id.value).value.entryId != entry.entryId
  }

  /** The checks of a save, and retiring the webhook right before it. */
  method CheckAndRetire(store: EntryStore, host: WebhookHost, entry: ConfigEntry, current: Option<string>, id: Option<string>,
                        hardwareMac: Option<string> -> Option<string>, cleanup: Cleanup)
    returns (abort: Option<Abort>)
    modifies host`receivers, host`endpoints
    ensures abort == Some(AccountMismatch) <==> Mismatch(hardwareMac, current, id)
    ensures abort == Some(AlreadyConfigured) <==> !Mismatch(hardwareMac, current, id) && Taken(store, entry, id)
    ensures abort == Some(CannotConnect) ==> cleanup == Move && StoredText(entry.data, WebhookEndpointId).Some?
    ensures cleanup == Move && StoredText(entry.data, WebhookEndpointId).Some? && StoredText(entry.data, AccessToken).None? ==> abort.Some?
    ensures abort.Some? ==> host.receivers == old(host.receivers)
    ensures abort.None? && cleanup == Move ==> EndpointGone(host, entry.data)
    ensures abort.None? ==>
              host.receivers == if cleanup == NoCleanup then old(host.receivers) else Unregistered(old(host.receivers), entry.data)
    ensures cleanup == NoCleanup ==> host.endpoints == old(host.endpoints)
  {
    hide Unregistered, StoredText;
    var currentMac, newMac := hardwareMac(current), hardwareMac(id);
    if currentMac.Some? && newMac.Some? && newMac != currentMac {
      return Some(AccountMismatch);
    }
    if id.Some? && id.value != "" && id != entry.uniqueId {
      var owner := store.Owner(id.value);
      if owner.Some? && owner.value.entryId != entry.entryId {
        return Some(AlreadyConfigured);
      }
    }
    if cleanup != NoCleanup {
      var removed := RemoveWebhook(host, entry.data, cleanup == Move);
      if cleanup == Move && !removed {
        return Some(CannotConnect);
      }
    }
    return None;
  }

  /**
   * `_async_reconfigure_local`. `hardwareMac` reads a hardware address out of an
   * identity; the outcomes below hold for every such reading.
   */
  method ReconfigureLocal(registry: Registry, store: EntryStore, host: WebhookHost, entry: ConfigEntry,
                          input: Input, info: ConsoleInfo, hardwareMac: Option<string> -> Option<string>,
                          fields: Data, cleanup: Cleanup, families: Families := SUFFIXES)
    returns (outcome: Outcome)
    requires registry.Valid()
    modifies registry, store, host, entry
    ensures registry.Valid() && Extends(old(registry.trace), registry.trace)
    // When it aborts: two hardware addresses, an identity of another entry, or an endpoint not confirmed gone.
    ensures outcome == Aborted(AccountMismatch)
            <==> old(Mismatch(hardwareMac, CurrentId(entry.data, entry.uniqueId, input), NewId(entry.data, entry.uniqueId, input, info)))
    ensures outcome == Aborted(AlreadyConfigured)
            <==> && outcome != Aborted(AccountMismatch)
                 && old(Taken(store, entry, NewId(entry.data, entry.uniqueId, input, info)))
    ensures outcome == Aborted(CannotConnect) ==> cleanup == Move && StoredText(old(entry.data), WebhookEndpointId).Some?
    ensures cleanup == Move && StoredText(old(entry.data), WebhookEndpointId).Some? && StoredText(old(entry.data), AccessToken).None? ==>
              outcome.Aborted?
    // An abort leaves entry, registry and receiver as they were.
    ensures outcome.Aborted? ==>
              && entry.data == old(entry.data) && entry.uniqueId == old(entry.uniqueId)
              && registry.rows == old(registry.rows) && host.receivers == old(host.receivers)
              && host.reloads == old(host.reloads) && store.entries == old(store.entries)
    // A finished move has confirmed the old endpoint gone and dropped the receiver.
    ensures outcome.Finished? && cleanup == Move ==>
              EndpointGone(host, old(entry.data)) && host.receivers == Unregistered(old(host.receivers), old(entry.data))
    ensures outcome.Finished? && cleanup == Clear ==> host.receivers == Unregistered(old(host.receivers), old(entry.data))
    ensures outcome.Finished? && cleanup == NoCleanup ==>
              host.receivers == old(host.receivers) && host.endpoints == old(host.endpoints)
    // A save stores the new connection with exactly the planned Access fields.
    ensures outcome == Finished(Saved) ==>
              && entry.data == ConnectionData(input, NewId(old(entry.data), old(entry.uniqueId), input, info)) + fields
              && entry.uniqueId == old(NewUniqueId(entry, OrElse(NewId(entry.data, entry.uniqueId, input, info), entry.uniqueId)))
              && host.reloads == old(host.reloads)
    // A failed save is compensated, and the unchanged entry reloads to get its receiver back.
    ensures outcome.Finished? && !outcome.save.Saved? ==>
              && host.reloads == (if cleanup != NoCleanup && store.Registered(entry) then old(host.reloads) + [entry.entryId] else old(host.reloads))
              && (outcome.save.IdentityRejected? || outcome.save.RekeyRaised? || outcome.save.restore in {NotNeeded, Restored} ==>
                    entry.data == old(entry.data) && entry.uniqueId == old(entry.uniqueId))
              && (outcome.save.IdentityRejected? ==> registry.rows == old(registry.rows))
              && (outcome.save.RekeyRaised? && NoneRaised(registry.trace, FirstRaise(registry.trace, |old(registry.trace)|) + 1) ==>
                    registry.rows == old(registry.rows))
              && (outcome.save.SaveRaised? && NoneRaised(registry.trace, |old(registry.trace)|) ==> registry.rows == old(registry.rows))
              && (outcome.save.SaveRaised? && outcome.save.restore == EntryRestore.Refused ==>
                    !store.Registered(entry) || store.ClaimedElsewhere(entry, old(entry.uniqueId)))
  {
    hide NormalizeNamespace, Unique, Keyed, Moved, RekeyPlan, Rejects, Decide, NoneRaised, Stuck, FirstRaise, NewId, CurrentId, ConnectionData,
      Unregistered, StoredText, Mismatch, Taken;
    var newId := NewId(entry.data, entry.uniqueId, input, info);
    var abort := CheckAndRetire(store, host, entry, CurrentId(entry.data, entry.uniqueId, input), newId, hardwareMac, cleanup);
    if abort.Some? {
      return Aborted(abort.value);
    }
    var data := ConnectionData(input, newId) + fields;
    var consoleId := if newId.Some? then Str(newId.value) else Absent;
    var save := UpdateSiteEntry(registry, store, entry, data, consoleId, OrElse(newId, entry.uniqueId), families);
    if !save.Saved? && cleanup != NoCleanup && store.Registered(entry) {
      host.reloads := host.reloads + [entry.entryId];
    }
    return Finished(save);
  }

  lemma PlannedSettings(data: Data, input: Input, hostKey: Value -> Option<string>, error: Option<string>, newId: Option<string>)
    ensures var plan := PlanAccess(data, input, hostKey, error);
      plan.Store? ==> KeepsUnretired(data, ConnectionData(input, newId) + plan.fields, Retires(data, input, hostKey))
  {
    hide TypedToken, ServerMoved, PlanAccess, Retires;
    MoveDropsWebhook(data, input, hostKey, error);
    assert forall key :: key in WEBHOOK_KEYS ==> key !in ConnectionData(input, newId);
  }

  lemma PlannedConnection(data: Data, input: Input, hostKey: Value -> Option<string>, error: Option<string>, newId: Option<string>)
    ensures var plan := PlanAccess(data, input, hostKey, error);
      plan.Store? ==>
        var saved := ConnectionData(input, newId) + plan.fields;
        HoldsConnection(input, newId, saved) && HoldsAccess(data, input, Validates(data, input, hostKey), saved)
  {
    hide TypedToken, ServerMoved, PlanAccess, Validates, Clears;
    PlannedAccess(data, input, hostKey, error);
  }

  /** The whole Access reconfigure: plan it, then save it. */
  method ReconfigureAccess(registry: Registry, store: EntryStore, host: WebhookHost, entry: ConfigEntry,
                           input: Input, info: ConsoleInfo, hardwareMac: Option<string> -> Option<string>,
                           hostKey: Value -> Option<string>, error: Option<string>, families: Families := SUFFIXES)
    returns (outcome: Option<Outcome>)
    requires registry.Valid()
    modifies registry, store, host, entry
    ensures registry.Valid()
    // The form is refused exactly if a token has to be validated and is not valid.
    ensures outcome.None? <==> Validates(old(entry.data), input, hostKey) && error.Some?
    ensures outcome.None? ==> registry.rows == old(registry.rows) && host.receivers == old(host.receivers) && entry.data == old(entry.data)
    // A save holds the new connection, the Access token and port, and nothing else but webhook settings.
    ensures outcome == Some(Finished(Saved)) ==>
              var id := old(NewId(entry.data, entry.uniqueId, input, info));
              && HoldsConnection(input, id, entry.data)
              && HoldsAccess(old(entry.data), input, Validates(old(entry.data), input, hostKey), entry.data)
              && entry.uniqueId == if Filled(id) then id else old(entry.uniqueId)
    // A save keeps the webhook settings exactly if they need not be retired.
    ensures outcome == Some(Finished(Saved)) ==>
              var retires := Retires(old(entry.data), input, hostKey);
              && KeepsUnretired(old(entry.data), entry.data, retires)
              && (HasWebhook(entry.data) <==> HasWebhook(old(entry.data)) && !retires)
    // Retiring them by their token drops the receiver and, on a move, has confirmed the endpoint gone.
    ensures outcome == Some(Finished(Saved)) ==>
              var cleanup := HasWebhook(old(entry.data)) && Truthy(Get(old(entry.data), AccessToken)) && Retires(old(entry.data), input, hostKey);
              && host.receivers == (if cleanup then Unregistered(old(host.receivers), old(entry.data)) else old(host.receivers))
              && (cleanup && !Clears(input) ==> EndpointGone(host, old(entry.data)))
              && (!cleanup ==> host.endpoints == old(host.endpoints))
  {
    hide TypedToken, ServerMoved, PlanAccess, Unregistered, CurrentId, NewId, ConnectionData, Retires, Clears, HasWebhook, KeepsUnretired,
      Validates, HoldsAccess, HoldsConnection;
    var plan := PlanAccess(entry.data, input, hostKey, error);
    PlannedAccess(entry.data, input, hostKey, error);
    if plan.FormError? {
      return None;
    }
    ghost var newId := NewId(entry.data, entry.uniqueId, input, info);
    MoveDropsWebhook(entry.data, input, hostKey, error);
    PlannedSettings(entry.data, input, hostKey, error, newId);
    SameWebhook(entry.data, ConnectionData(input, newId) + plan.fields, Retires(entry.data, input, hostKey));
    PlannedConnection(entry.data, input, hostKey, error, newId);
    var o := ReconfigureLocal(registry, store, host, entry, input, info, hardwareMac, plan.fields, plan.cleanup, families);
    return Some(o);
  }
}

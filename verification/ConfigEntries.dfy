/** Home Assistant's config entries, as far as the integration uses them. */
module ConfigEntries {
  import opened Text

  /** A stored setting; `Absent` is both a missing key and None. */
  datatype Value = Absent | Str(text: string) | Flag(on: bool) | Number(n: int)

  /** The keys of `entry.data` the modelled code names; the rest keep their own. */
  datatype Setting =
    | ConsoleId | ApiKey | ConnectionType | Host | VerifySsl
    | AccessToken | AccessPort | WebhookId | WebhookEndpointId | WebhookSecret
    | OtherSetting(name: string)

  type Data = map<Setting, Value>

  function Get(data: Data, key: Setting): Value {
    if key in data then data[key] else Absent
  }

  function TextOf(value: Value): Option<string> {
    match value
    case Str(text) => Some(text)
    case _ => None
  }

  predicate Truthy(value: Value) {
    match value
    case Absent => false
    case Str(text) => text != ""
    case Flag(on) => on
    case Number(n) => n != 0
  }

  /** Python's falsy values of an entry, and the only texts. */
  lemma FalsyAndText(value: Value, text: string)
    ensures !Truthy(value) <==> value in {Absent, Str(""), Flag(false), Number(0)}
    ensures TextOf(value) == Some(text) <==> value == Str(text)
  {
  }

  class ConfigEntry {
    const entryId: string
    var data: Data
    var uniqueId: Option<string>

    constructor (entryId: string, data: Data, uniqueId: Option<string>)
      ensures this.entryId == entryId && this.data == data && this.uniqueId == uniqueId
    {
      this.entryId, this.data, this.uniqueId := entryId, data, uniqueId;
    }
  }

  /** `hass.config_entries`: the registered entries, in order. */
  class EntryStore {
    var entries: seq<ConfigEntry>

    constructor (entries: seq<ConfigEntry>)
      ensures this.entries == entries
    {
      this.entries := entries;
    }

    predicate Registered(entry: ConfigEntry): (registered: bool)
      reads this
      ensures registered ==> entry in entries
      ensures entry in entries && (forall e :: e in entries && e.entryId == entry.entryId ==> e == entry) ==> registered
    {
      Find(entry.entryId) == Some(entry)
    }

    /** `async_get_entry`. */
    function Find(entryId: string): (found: Option<ConfigEntry>)
      reads this
      ensures found.Some? ==> found.value in entries && found.value.entryId == entryId
    {
      FirstWithId(entries, entryId)
    }

    static function FirstWithId(entries: seq<ConfigEntry>, entryId: string): (found: Option<ConfigEntry>)
      ensures found.Some? ==> found.value in entries && found.value.entryId == entryId
      ensures found.None? <==> forall e :: e in entries ==> e.entryId != entryId
    {
      if entries == [] then None
      else if entries[0].entryId == entryId then Some(entries[0])
      else FirstWithId(entries[1..], entryId)
    }

    /** `async_entry_for_domain_unique_id`. */
    function Owner(uniqueId: string): (owner: Option<ConfigEntry>)
      reads this, entries
      ensures owner.Some? ==> owner.value in entries && owner.value.uniqueId == Some(uniqueId)
      ensures owner.None? <==> forall e :: e in entries ==> e.uniqueId != Some(uniqueId)
    {
      FirstWithUniqueId(entries, uniqueId)
    }

    static function FirstWithUniqueId(entries: seq<ConfigEntry>, uniqueId: string): (owner: Option<ConfigEntry>)
      reads entries
      ensures owner.Some? ==> owner.value in entries && owner.value.uniqueId == Some(uniqueId)
      ensures owner.None? <==> forall e :: e in entries ==> e.uniqueId != Some(uniqueId)
    {
      if entries == [] then None
      else if entries[0].uniqueId == Some(uniqueId) then Some(entries[0])
      else FirstWithUniqueId(entries[1..], uniqueId)
    }

    /** Another registered entry has claimed the identity. */
    predicate ClaimedElsewhere(entry: ConfigEntry, uniqueId: Option<string>): (claimed: bool)
      reads this, entries
      ensures claimed ==> uniqueId.Some? && exists e :: e in entries && e != entry && e.uniqueId == uniqueId
      ensures !claimed && uniqueId.Some? ==>
                (exists e :: e in entries && e.uniqueId == uniqueId && e == entry) || forall e :: e in entries ==> e.uniqueId != uniqueId
    {
      uniqueId.Some? && Owner(uniqueId.value).Some? && Owner(uniqueId.value).value != entry
    }

    /**
     * Saving an entry, directly or through the update-and-reload helper. A failure
     * may strike after either field changed, and whatever raised it may have
     * registered, removed or replaced entries meanwhile.
     */
    method Save(entry: ConfigEntry, data: Data, uniqueId: Option<string>) returns (raised: bool)
      modifies this, entry
      ensures !raised ==> entry.data == data && entry.uniqueId == uniqueId && entries == old(entries)
      ensures raised ==> entry.data in {old(entry.data), data} && entry.uniqueId in {old(entry.uniqueId), uniqueId}
    {
      raised := *;
      var setsData: bool, setsId: bool := *, *;
      if !raised || setsData {
        entry.data := data;
      }
      if !raised || setsId {
        entry.uniqueId := uniqueId;
      }
      if raised {
        entries := *;
      }
    }
  }
}

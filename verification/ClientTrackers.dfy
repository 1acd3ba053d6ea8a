/** Client device trackers: migrating their IDs, reconciling the registry, adding entities. */
module ClientTrackers {
  import opened Text
  import opened EntityRegistry
  import opened Rekey

  const TRACKER_DOMAIN := "device_tracker"
  const MOBILITY_DEVICE_PREFIX := "mobility_"
  const PREFIX := DOMAIN + "_"

  // ---------- Identities ----------

  /** `_mac_from_unique_id`: the lower-case MAC an ID names, prefixed or bare. */
  function MacOf(uniqueId: string): string {
    if StartsWith(uniqueId, PREFIX) then Lower(uniqueId[|PREFIX|..]) else Lower(uniqueId)
  }

  function PrefixedId(mac: string): string {
    PREFIX + Lower(mac)
  }

  /** A prefixed ID names its own MAC, so migration never changes which client a row means. */
  lemma PrefixedIdNamesMac(mac: string)
    ensures StartsWith(PrefixedId(mac), PREFIX) && MacOf(PrefixedId(mac)) == Lower(mac)
  {
    LowerIdempotent(mac);
    assert PrefixedId(mac)[|PREFIX|..] == Lower(mac);
  }

  predicate IsTracker(row: Row, entryId: string) {
    && row.configEntryId == Some(entryId) && row.domain == TRACKER_DOMAIN && row.platform == DOMAIN
    && !StartsWith(row.uniqueId, MOBILITY_DEVICE_PREFIX)
  }

  /** The device tracker rows of the integration, except the mobility routers'. */
  lemma TrackerIs(row: Row, entryId: string)
    ensures IsTracker(row, entryId) <==>
              && row.configEntryId == Some(entryId) && row.domain == "device_tracker" && row.platform == "unifi_insights"
              && !("mobility_" <= row.uniqueId)
  {
  }

  /** A tracker still registered under the bare MAC. */
  predicate IsLegacy(row: Row, entryId: string) {
    IsTracker(row, entryId) && !StartsWith(row.uniqueId, PREFIX)
  }

  function Prefixed(row: Row): Row {
    row.(uniqueId := PrefixedId(row.uniqueId))
  }

  lemma PrefixedIsTracker(row: Row, entryId: string)
    requires IsLegacy(row, entryId)
    ensures IsTracker(Prefixed(row), entryId) && !IsLegacy(Prefixed(row), entryId)
    ensures MacOf(Prefixed(row).uniqueId) == MacOf(row.uniqueId)
  {
    PrefixedIdNamesMac(row.uniqueId);
    assert PrefixedId(row.uniqueId)[0] == 'u';
  }

  // ---------- Migration ----------

  /** Rows change only by getting their prefix; none is added or lost. */
  ghost predicate OnlyPrefixed(was: Rows, now: Rows, entryId: string) {
    && now.Keys == was.Keys
    && forall id :: id in was ==> now[id] == was[id] || (IsLegacy(was[id], entryId) && now[id] == Prefixed(was[id]))
  }

  /** Each row's MAC is conserved. */
  lemma MigrationKeepsMacs(was: Rows, now: Rows, entryId: string, id: string)
    requires OnlyPrefixed(was, now, entryId) && id in was
    ensures IsTracker(now[id], entryId) == IsTracker(was[id], entryId)
    ensures IsTracker(was[id], entryId) ==> MacOf(now[id].uniqueId) == MacOf(was[id].uniqueId)
    ensures !IsTracker(was[id], entryId) ==> now[id] == was[id]
  {
    if now[id] != was[id] {
      PrefixedIsTracker(was[id], entryId);
    }
  }

  /** `_client_tracker_entries` */
  method TrackerEntries(registry: Registry, entryId: string) returns (trackers: seq<Row>)
    requires registry.Valid()
    ensures ListsTrackers(trackers, registry.rows, entryId)
  {
    var entries := registry.EntriesForConfigEntry(entryId);
    hide IsTracker, Unique;
    trackers := [];
    for i := 0 to |entries|
      invariant forall t :: t in trackers <==> t in entries[..i] && IsTracker(t, entryId)
      invariant forall a, b :: 0 <= a < b < |trackers| ==> trackers[a].entityId != trackers[b].entityId
      invariant forall a, b :: 0 <= a < |trackers| && i <= b < |entries| ==> trackers[a].entityId != entries[b].entityId
    {
      assert entries[..i + 1] == entries[..i] + [entries[i]];
      if IsTracker(entries[i], entryId) {
        trackers := trackers + [entries[i]];
      }
    }
    assert entries[..|entries|] == entries;
    TrackersListed(trackers, entries, registry.rows, entryId);
  }

  /** The list holds every tracker row of the entry once, as it is now. */
  ghost predicate ListsTrackers(trackers: seq<Row>, rows: Rows, entryId: string) {
    && (forall i :: 0 <= i < |trackers| ==>
                      IsTracker(trackers[i], entryId) && trackers[i].entityId in rows && rows[trackers[i].entityId] == trackers[i])
    && (forall a, b :: 0 <= a < b < |trackers| ==> trackers[a].entityId != trackers[b].entityId)
    && (forall id :: id in rows && IsTracker(rows[id], entryId) ==> rows[id] in trackers)
  }

  lemma TrackersListed(trackers: seq<Row>, entries: seq<Row>, rows: Rows, entryId: string)
    requires forall i :: 0 <= i < |entries| ==> entries[i].entityId in rows && rows[entries[i].entityId] == entries[i]
    requires forall id :: id in rows && rows[id].configEntryId == Some(entryId) ==> rows[id] in entries
    requires forall t :: t in trackers <==> t in entries && IsTracker(t, entryId)
    requires forall a, b :: 0 <= a < b < |trackers| ==> trackers[a].entityId != trackers[b].entityId
    ensures ListsTrackers(trackers, rows, entryId)
  {
    hide StartsWith;
    forall i | 0 <= i < |trackers|
      ensures IsTracker(trackers[i], entryId) && trackers[i].entityId in rows && rows[trackers[i].entityId] == trackers[i]
    {
      assert trackers[i] in trackers;
    }
  }

  /**
   * `_migrate_tracker_unique_ids`. An occupied ID is left alone, so no update is refused;
   * an update that raises ends the setup.
   */
  method MigrateTrackers(registry: Registry, entryId: string, trackers: seq<Row>) returns (raised: bool)
    requires registry.Valid() && ListsTrackers(trackers, registry.rows, entryId)
    modifies registry
    ensures registry.Valid() && OnlyPrefixed(old(registry.rows), registry.rows, entryId)
    ensures Extends(old(registry.trace), registry.trace)
    ensures NeverRefused(registry.trace, |old(registry.trace)|) && AlwaysUnique(registry.trace, |old(registry.trace)|)
    // A tracker keeps its bare ID only because another row holds the prefixed one.
    ensures !raised ==> forall id :: id in registry.rows && IsLegacy(registry.rows[id], entryId) ==>
                                       Claimed(registry.rows, TRACKER_DOMAIN, DOMAIN, PrefixedId(registry.rows[id].uniqueId))
  {
    hide IsLegacy, IsTracker, StartsWith, Lower, Unique, PrefixedId;
    ghost var was, start := registry.rows, |registry.trace|;
    raised := false;
    for i := 0 to |trackers|
      invariant registry.Valid() && OnlyPrefixed(was, registry.rows, entryId)
      invariant Extends(old(registry.trace), registry.trace)
      invariant NeverRefused(registry.trace, start) && AlwaysUnique(registry.trace, start)
      invariant forall k :: i <= k < |trackers| ==> registry.rows[trackers[k].entityId] == trackers[k]
      invariant forall k :: 0 <= k < i ==> Settled(registry.rows, trackers[k].entityId, entryId)
    {
      var row := trackers[i];
      if !StartsWith(row.uniqueId, PREFIX) {
        var newId := PrefixedId(row.uniqueId);
        var existing := registry.FindEntityId(TRACKER_DOMAIN, newId);
        if existing.None? {
          ghost var rows, trace := registry.rows, registry.trace;
          var failed := registry.UpdateUniqueId(row.entityId, newId);
          FreeForTracker(rows, row, entryId, newId);
          TraceAfter(trace, registry.trace, start);
          RenamedTracker(was, rows, row, entryId);
          if failed != Nothing {
            return true;
          }
          forall k | 0 <= k < i + 1 ensures Settled(registry.rows, trackers[k].entityId, entryId) {
            StaysSettled(rows, row, entryId, trackers[k].entityId);
          }
        }
      } else {
        AlreadyPrefixed(registry.rows, row, entryId);
      }
    }
    forall id | id in registry.rows && IsLegacy(registry.rows[id], entryId)
      ensures Settled(registry.rows, id, entryId)
    {
      LegacyIsListed(was, registry.rows, entryId, id, trackers);
    }
  }

  /** Nothing more to do for this row: it is prefixed, or its prefixed ID is taken. */
  ghost predicate Settled(rows: Rows, id: string, entryId: string)
  {
    id in rows && IsLegacy(rows[id], entryId) ==> Claimed(rows, TRACKER_DOMAIN, DOMAIN, PrefixedId(rows[id].uniqueId))
  }

  lemma FreeForTracker(rows: Rows, row: Row, entryId: string, newId: string)
    requires IsTracker(row, entryId) && row.entityId in rows && rows[row.entityId] == row
    requires !Claimed(rows, TRACKER_DOMAIN, DOMAIN, newId)
    ensures !ClaimedByOther(rows, row.entityId, newId)
  {
    hide StartsWith;
  }

  lemma RenamedTracker(was: Rows, rows: Rows, row: Row, entryId: string)
    requires OnlyPrefixed(was, rows, entryId) && row.entityId in rows && rows[row.entityId] == row
    requires IsTracker(row, entryId) && !StartsWith(row.uniqueId, PREFIX)
    ensures OnlyPrefixed(was, Renamed(rows, row.entityId, PrefixedId(row.uniqueId)), entryId)
  {
    var id := row.entityId;
    if was[id] != row {
      PrefixedIsTracker(was[id], entryId);
    }
    hide StartsWith, PrefixedId;
  }

  lemma StaysSettled(rows: Rows, row: Row, entryId: string, id: string)
    requires IsTracker(row, entryId) && !StartsWith(row.uniqueId, PREFIX)
    requires row.entityId in rows && rows[row.entityId] == row
    requires id == row.entityId || Settled(rows, id, entryId)
    ensures Settled(Renamed(rows, row.entityId, PrefixedId(row.uniqueId)), id, entryId)
  {
    PrefixedIsTracker(row, entryId);
    var now := Renamed(rows, row.entityId, PrefixedId(row.uniqueId));
    if id != row.entityId && id in rows && IsLegacy(rows[id], entryId) {
      PrefixedIdNamesMac(rows[id].uniqueId);
      var holder :| holder in rows && HasIdentity(rows[holder], TRACKER_DOMAIN, DOMAIN, PrefixedId(rows[id].uniqueId));
      assert HasIdentity(now[holder], TRACKER_DOMAIN, DOMAIN, PrefixedId(rows[id].uniqueId));
    }
  }

  lemma AlreadyPrefixed(rows: Rows, row: Row, entryId: string)
    requires StartsWith(row.uniqueId, PREFIX) && row.entityId in rows && rows[row.entityId] == row
    ensures Settled(rows, row.entityId, entryId)
  {
  }

  lemma LegacyIsListed(was: Rows, now: Rows, entryId: string, id: string, trackers: seq<Row>)
    requires ListsTrackers(trackers, was, entryId) && OnlyPrefixed(was, now, entryId) && Keyed(was)
    requires id in now && IsLegacy(now[id], entryId)
    ensures exists k :: 0 <= k < |trackers| && trackers[k].entityId == id
  {
    MigrationKeepsMacs(was, now, entryId, id);
    hide StartsWith;
    assert was[id] in trackers;
  }

  // ---------- Connected clients ----------

  datatype ClientKind = Wireless | Wired | OtherKind

  /** A connected client as listed; an empty MAC is a missing one. */
  datatype Client = Client(mac: string, kind: ClientKind)

  datatype Options = Options(wifi: bool, wired: bool) {
    predicate Off() {
      !wifi && !wired
    }
  }

  predicate ShouldTrack(client: Client, options: Options) {
    match client.kind
    case Wireless => options.wifi
    case Wired => options.wired
    case OtherKind => options.wifi || options.wired
  }

  /** The MACs to track of a snapshot, across all its sites. */
  function Wanted(clients: seq<Client>, options: Options): set<string> {
    set c | c in clients && c.mac != "" && ShouldTrack(c, options) :: Lower(c.mac)
  }

  /** The MACs connected with a type that is not tracked. */
  function Untracked(clients: seq<Client>, options: Options): set<string> {
    set c | c in clients && c.mac != "" && !ShouldTrack(c, options) :: Lower(c.mac)
  }

  /** A wireless client counts for the one option, a wired one for the other, any other client for either. */
  predicate Enabled(kind: ClientKind, options: Options) {
    || (kind == Wireless && options.wifi) || (kind == Wired && options.wired)
    || (kind == OtherKind && (options.wifi || options.wired))
  }

  /** A MAC is wanted, or untracked, in lower case and by a client that names it; it may be both. */
  lemma WantedIs(clients: seq<Client>, options: Options, mac: string)
    ensures mac in Wanted(clients, options) <==>
              exists c :: c in clients && c.mac != "" && Enabled(c.kind, options) && NamesMac(c, mac)
    ensures mac in Untracked(clients, options) <==>
              exists c :: c in clients && c.mac != "" && !Enabled(c.kind, options) && NamesMac(c, mac)
  {
    hide Lower, Enabled, ShouldTrack, NamesMac;
    forall c | c in clients ensures ShouldTrack(c, options) == Enabled(c.kind, options) && NamesMac(c, mac) == (Lower(c.mac) == mac) {
      TracksEnabled(c, options);
      NamesLower(c, mac);
    }
  }

  lemma TracksEnabled(client: Client, options: Options)
    ensures ShouldTrack(client, options) == Enabled(client.kind, options)
  {
  }

  /** The MAC is the client's, character by character in lower case. */
  predicate NamesMac(client: Client, mac: string) {
    |mac| == |client.mac| && forall i :: 0 <= i < |mac| ==> mac[i] == LowerChar(client.mac[i])
  }

  lemma NamesLower(client: Client, mac: string)
    ensures NamesMac(client, mac) <==> Lower(client.mac) == mac
  {
  }

  /** What names a client in an ID: all of a bare one, and what follows the prefix of the other. */
  lemma IdNamesMac(rest: string)
    ensures MacOf("unifi_insights_" + rest) == Lower(rest)
    ensures !StartsWith(rest, "unifi_insights_") ==> MacOf(rest) == Lower(rest)
  {
    assert ("unifi_insights_" + rest)[15..] == rest && PREFIX == "unifi_insights_";
  }

  // ---------- Live entities ----------

  /** The tracker entities of one setup, by unique ID, in the order they were added. */
  class TrackerPlatform {
    const options: Options
    var tracked: set<string>
    var live: seq<string>

    /** No ID was given to two entities, and exactly the MACs of entities are marked as tracked. */
    ghost predicate Valid()
      reads this
    {
      && Distinct(live)
      && (forall uid :: uid in live ==> MacOf(uid) in tracked)
      && (forall mac :: mac in tracked ==> HasEntity(live, mac))
    }

    constructor (options: Options)
      ensures Valid() && this.options == options && live == [] && tracked == {}
    {
      this.options := options;
      tracked, live := {}, [];
    }

    /** Restores one entity for a surviving registry row. */
    method Retain(uniqueId: string)
      requires Valid() && uniqueId !in live
      modifies this
      ensures Valid() && live == old(live) + [uniqueId] && tracked == old(tracked) + {MacOf(uniqueId)}
    {
      hide MacOf, HasEntity;
      EntitiesKept(live, [uniqueId]);
      live := live + [uniqueId];
      tracked := tracked + {MacOf(uniqueId)};
    }

    /** The listener `async_add_clients`: one entity per wanted MAC not tracked yet. */
    method AddClients(clients: seq<Client>)
      requires Valid()
      modifies this
      ensures Valid() && tracked == old(tracked) + Wanted(clients, options)
      ensures old(live) <= live
      ensures forall uid :: uid in live[|old(live)|..] <==>
                              exists mac :: mac in Wanted(clients, options) - old(tracked) && uid == PREFIX + mac
    {
      hide StartsWith, MacOf, Wanted, HasEntity, Distinct;
      var added := NewIds(Wanted(clients, options) - tracked);
      AddedDiffer(clients, options, tracked, live, added);
      EntitiesKept(live, added);
      tracked := tracked + Wanted(clients, options);
      live := live + added;
    }
  }

  /** One new ID for each of the MACs. */
  method NewIds(macs: set<string>) returns (added: seq<string>)
    ensures Distinct(added) && forall uid :: uid in added <==> exists mac :: mac in macs && uid == PREFIX + mac
  {
    var pending := macs;
    added := [];
    while pending != {}
      invariant pending <= macs && Distinct(added)
      invariant forall uid :: uid in added <==> exists mac :: mac in macs - pending && uid == PREFIX + mac
      decreases pending
    {
      var mac :| mac in pending;
      forall other | other in macs - pending ensures PREFIX + other != PREFIX + mac {
        IdDeterminesMac(mac, other);
      }
      assert PREFIX + mac !in added;
      pending := pending - {mac};
      DistinctAppend(added, PREFIX + mac);
      added := added + [PREFIX + mac];
    }
  }

  /** The IDs of untracked MACs are new, and stand for those MACs. */
  lemma AddedDiffer(clients: seq<Client>, options: Options, tracked: set<string>, live: seq<string>, added: seq<string>)
    requires Distinct(live) && Distinct(added) && forall uid :: uid in live ==> MacOf(uid) in tracked
    requires forall uid :: uid in added <==> exists mac :: mac in Wanted(clients, options) - tracked && uid == PREFIX + mac
    ensures Distinct(live + added)
    ensures forall uid :: uid in added ==> MacOf(uid) in Wanted(clients, options)
    ensures forall mac :: mac in Wanted(clients, options) - tracked ==> HasEntity(added, mac)
  {
    hide MacOf, Wanted, Distinct;
    forall uid | uid in added ensures MacOf(uid) in Wanted(clients, options) - tracked {
      var mac :| mac in Wanted(clients, options) - tracked && uid == PREFIX + mac;
      WantedIdNamesMac(clients, options, mac);
    }
    forall mac | mac in Wanted(clients, options) - tracked ensures HasEntity(added, mac) {
      WantedIdNamesMac(clients, options, mac);
      assert PREFIX + mac in added;
    }
    DistinctConcat(live, added);
  }

  ghost predicate HasEntity(live: seq<string>, mac: string) {
    exists uid :: uid in live && MacOf(uid) == mac
  }

  lemma EntitiesKept(live: seq<string>, added: seq<string>)
    ensures forall mac :: HasEntity(live, mac) || HasEntity(added, mac) ==> HasEntity(live + added, mac)
    ensures forall uid :: uid in added ==> HasEntity(added, MacOf(uid))
  {
    hide MacOf;
    forall mac | HasEntity(live, mac) || HasEntity(added, mac) ensures HasEntity(live + added, mac) {
      var uid :| (uid in live || uid in added) && MacOf(uid) == mac;
      assert uid in live + added;
    }
  }

  predicate Distinct(s: seq<string>) {
    forall i, j :: 0 <= i < j < |s| ==> s[i] != s[j]
  }

  lemma DistinctAppend(s: seq<string>, x: string)
    requires Distinct(s) && x !in s
    ensures Distinct(s + [x])
  {
  }

  lemma DistinctConcat(s: seq<string>, t: seq<string>)
    requires Distinct(s) && Distinct(t)
    requires forall x :: x in s ==> x !in t
    ensures Distinct(s + t)
  {
    forall i, j | 0 <= i < j < |s + t| ensures (s + t)[i] != (s + t)[j] {
      if i < |s| <= j {
        assert s[i] in s && t[j - |s|] in t;
      }
    }
  }

  lemma IdDeterminesMac(a: string, b: string)
    requires a != b
    ensures PREFIX + a != PREFIX + b
  {
    assert (PREFIX + a)[|PREFIX|..] == a && (PREFIX + b)[|PREFIX|..] == b;
  }

  lemma WantedIdNamesMac(clients: seq<Client>, options: Options, mac: string)
    requires mac in Wanted(clients, options)
    ensures MacOf(PREFIX + mac) == mac
  {
    var c :| c in clients && c.mac != "" && ShouldTrack(c, options) && Lower(c.mac) == mac;
    PrefixedIdNamesMac(c.mac);
  }

  // ---------- Setup ----------

  /** A tracker row the options no longer want: tracking is off, or its client is of an untracked type. */
  ghost predicate Unwanted(row: Row, entryId: string, clients: seq<Client>, options: Options) {
    IsTracker(row, entryId) && (options.Off() || MacOf(row.uniqueId) in Untracked(clients, options))
  }

  /** Exactly the unwanted rows are gone; the others keep everything but, at most, their prefix. */
  ghost predicate Reconciled(was: Rows, now: Rows, entryId: string, clients: seq<Client>, options: Options) {
    && (forall id :: id in now <==> id in was && !Unwanted(was[id], entryId, clients, options))
    && (forall id :: id in now ==> now[id] == was[id] || (IsLegacy(was[id], entryId) && now[id] == Prefixed(was[id])))
  }

  method RemoveAll(registry: Registry, trackers: seq<Row>)
    requires registry.Valid()
    modifies registry`rows
    ensures registry.Valid()
    ensures registry.rows == old(registry.rows) - (set i | 0 <= i < |trackers| :: trackers[i].entityId)
  {
    hide Unique;
    ghost var removed: set<string> := {};
    for i := 0 to |trackers|
      invariant registry.Valid() && removed == set k | 0 <= k < i :: trackers[k].entityId
      invariant registry.rows == old(registry.rows) - removed
    {
      registry.Remove(trackers[i].entityId);
      removed := removed + {trackers[i].entityId};
    }
  }

  ghost predicate Drops(trackers: seq<Row>, untracked: set<string>, id: string) {
    exists t :: t in trackers && t.entityId == id && MacOf(t.uniqueId) in untracked
  }

  /** Removes the trackers whose client is connected with an untracked type. */
  method RemoveUntracked(registry: Registry, entryId: string, trackers: seq<Row>, untracked: set<string>) returns (surviving: seq<Row>)
    requires registry.Valid() && ListsTrackers(trackers, registry.rows, entryId)
    modifies registry`rows
    ensures registry.Valid()
    ensures forall id :: id in registry.rows <==> id in old(registry.rows) && !Drops(trackers, untracked, id)
    ensures forall id :: id in registry.rows ==> registry.rows[id] == old(registry.rows)[id]
    ensures forall t :: t in surviving <==> t in trackers && MacOf(t.uniqueId) !in untracked
    ensures forall a, b :: 0 <= a < b < |surviving| ==> surviving[a].entityId != surviving[b].entityId
  {
    hide Unique, MacOf, IsTracker, Drops;
    ghost var was := registry.rows;
    surviving := [];
    NoneDropped(untracked);
    for i := 0 to |trackers|
      invariant registry.Valid()
      invariant forall id :: id in registry.rows <==> id in was && !Drops(trackers[..i], untracked, id)
      invariant forall id :: id in registry.rows ==> registry.rows[id] == was[id]
      invariant forall t :: t in surviving <==> t in trackers[..i] && MacOf(t.uniqueId) !in untracked
      invariant forall a, b :: 0 <= a < b < |surviving| ==> surviving[a].entityId != surviving[b].entityId
      invariant forall a, b :: 0 <= a < |surviving| && i <= b < |trackers| ==> surviving[a].entityId != trackers[b].entityId
    {
      var t := trackers[i];
      assert trackers[..i + 1] == trackers[..i] + [t];
      forall id {
        DropsNext(trackers[..i], t, untracked, id);
      }
      if MacOf(t.uniqueId) in untracked {
        registry.Remove(t.entityId);
      } else {
        surviving := surviving + [t];
      }
    }
    assert trackers[..|trackers|] == trackers;
  }

  lemma NoneDropped(untracked: set<string>)
    ensures forall id :: !Drops([], untracked, id)
  {
  }

  lemma DropsNext(trackers: seq<Row>, t: Row, untracked: set<string>, id: string)
    ensures Drops(trackers + [t], untracked, id)
            <==> Drops(trackers, untracked, id) || (t.entityId == id && MacOf(t.uniqueId) in untracked)
  {
    hide MacOf;
    if Drops(trackers, untracked, id) {
      var d :| d in trackers && d.entityId == id && MacOf(d.uniqueId) in untracked;
      assert d in trackers + [t];
    }
    if t.entityId == id && MacOf(t.uniqueId) in untracked {
      assert t in trackers + [t];
    }
  }

  /** Migrating first and dropping by MAC afterwards removes exactly the unwanted rows. */
  lemma DropsAreUnwanted(was: Rows, migrated: Rows, entryId: string, trackers: seq<Row>, clients: seq<Client>, options: Options, id: string)
    requires OnlyPrefixed(was, migrated, entryId) && ListsTrackers(trackers, migrated, entryId) && Keyed(migrated)
    requires id in was && !options.Off()
    ensures Drops(trackers, Untracked(clients, options), id) <==> Unwanted(was[id], entryId, clients, options)
  {
    MigrationKeepsMacs(was, migrated, entryId, id);
    hide IsTracker, MacOf, Untracked, OnlyPrefixed;
    if Drops(trackers, Untracked(clients, options), id) {
      var t :| t in trackers && t.entityId == id && MacOf(t.uniqueId) in Untracked(clients, options);
      assert migrated[id] == t;
    }
    if IsTracker(migrated[id], entryId) {
      assert migrated[id] in trackers && migrated[id].entityId == id;
    }
  }

  lemma DroppedReconciles(was: Rows, migrated: Rows, now: Rows, entryId: string, trackers: seq<Row>, clients: seq<Client>, options: Options)
    requires OnlyPrefixed(was, migrated, entryId) && ListsTrackers(trackers, migrated, entryId) && Keyed(migrated) && !options.Off()
    requires forall id :: id in now <==> id in migrated && !Drops(trackers, Untracked(clients, options), id)
    requires forall id :: id in now ==> now[id] == migrated[id]
    ensures Reconciled(was, now, entryId, clients, options)
  {
    hide Drops, Unwanted, Untracked, ListsTrackers, IsLegacy;
    forall id | id in was {
      DropsAreUnwanted(was, migrated, entryId, trackers, clients, options, id);
    }
  }

  /** Every row listed becomes an entity, under its own ID. */
  method RetainAll(platform: TrackerPlatform, surviving: seq<Row>)
    requires platform.Valid() && platform.live == [] && platform.tracked == {}
    requires forall a, b :: 0 <= a < b < |surviving| ==> surviving[a].uniqueId != surviving[b].uniqueId
    modifies platform
    ensures platform.Valid()
    ensures |platform.live| == |surviving| && forall i :: 0 <= i < |surviving| ==> platform.live[i] == surviving[i].uniqueId
    ensures forall mac :: mac in platform.tracked ==> exists t :: t in surviving && MacOf(t.uniqueId) == mac
  {
    hide MacOf;
    for i := 0 to |surviving|
      invariant platform.Valid() && |platform.live| == i
      invariant forall k :: 0 <= k < i ==> platform.live[k] == surviving[k].uniqueId
      invariant forall mac :: mac in platform.tracked ==> exists t :: t in surviving && MacOf(t.uniqueId) == mac
    {
      assert surviving[i] in surviving;
      platform.Retain(surviving[i].uniqueId);
    }
  }

  /** Rows of one family have distinct IDs. */
  lemma SurvivorsDistinct(rows: Rows, entryId: string, surviving: seq<Row>)
    requires Unique(rows) && Keyed(rows)
    requires forall i :: 0 <= i < |surviving| ==>
                           surviving[i].entityId in rows && rows[surviving[i].entityId] == surviving[i] && IsTracker(surviving[i], entryId)
    requires forall a, b :: 0 <= a < b < |surviving| ==> surviving[a].entityId != surviving[b].entityId
    ensures forall a, b :: 0 <= a < b < |surviving| ==> surviving[a].uniqueId != surviving[b].uniqueId
  {
    hide StartsWith;
    forall a, b | 0 <= a < b < |surviving| ensures surviving[a].uniqueId != surviving[b].uniqueId {
      var r, s := surviving[a], surviving[b];
      assert !HasIdentity(rows[r.entityId], s.domain, s.platform, s.uniqueId);
    }
  }

  /** The tracker rows of the entry each have a live entity of their own. */
  ghost predicate AllLive(rows: Rows, entryId: string, live: seq<string>) {
    forall id :: id in rows && IsTracker(rows[id], entryId) ==> rows[id].uniqueId in live
  }

  ghost predicate RowLive(rows: Rows, entryId: string, uid: string) {
    exists id :: id in rows && IsTracker(rows[id], entryId) && rows[id].uniqueId == uid
  }

  /**
   * The tracker part of `async_setup_entry`, up to and including the first call of the
   * listener. A raising registry update ends the setup before anything is removed.
   */
  method SetupTrackers(registry: Registry, platform: TrackerPlatform, entryId: string, clients: seq<Client>)
    returns (raised: bool)
    requires registry.Valid() && platform.Valid() && platform.live == [] && platform.tracked == {}
    modifies registry, platform
    ensures registry.Valid() && platform.Valid()
    ensures raised ==> OnlyPrefixed(old(registry.rows), registry.rows, entryId) && platform.live == []
    ensures !raised ==> Reconciled(old(registry.rows), registry.rows, entryId, clients, platform.options)
    ensures !raised && platform.options.Off() ==> platform.live == []
    ensures !raised && !platform.options.Off() ==>
              && AllLive(registry.rows, entryId, platform.live)
              && Wanted(clients, platform.options) <= platform.tracked
  {
    hide StartsWith, Lower, Unique, MacOf, IsTracker, Wanted, Untracked, Distinct, Drops, AllLive, RowLive, HasEntity, Reconciled, OnlyPrefixed,
      ListsTrackers;
    ghost var was := registry.rows;
    var trackers := TrackerEntries(registry, entryId);
    if platform.options.Off() {
      RemoveAll(registry, trackers);
      AllUnwanted(was, entryId, trackers, clients, platform.options);
      return false;
    }
    raised := MigrateTrackers(registry, entryId, trackers);
    if raised {
      return;
    }
    ghost var migrated := registry.rows;
    trackers := TrackerEntries(registry, entryId);
    var surviving := RemoveUntracked(registry, entryId, trackers, Untracked(clients, platform.options));
    DroppedReconciles(was, migrated, registry.rows, entryId, trackers, clients, platform.options);
    SurvivorsListed(migrated, registry.rows, entryId, trackers, surviving, Untracked(clients, platform.options));
    SurvivorsDistinct(registry.rows, entryId, surviving);
    RetainAll(platform, surviving);
    RetainedLive(registry.rows, entryId, surviving, platform.live);
    ghost var retained := platform.live;
    platform.AddClients(clients);
    LiveGrows(registry.rows, entryId, retained, platform.live);
    OnlyRows(registry.rows, entryId, surviving, retained);
    forall uid | uid in platform.live
      ensures RowLive(registry.rows, entryId, uid) || exists mac :: mac in Wanted(clients, platform.options) && uid == PREFIX + mac
    {
      if uid !in retained {
        assert uid in platform.live[|retained|..];
      }
    }
  }

  lemma OnlyRows(rows: Rows, entryId: string, surviving: seq<Row>, live: seq<string>)
    requires |live| == |surviving| && forall i :: 0 <= i < |surviving| ==> live[i] == surviving[i].uniqueId
    requires forall i :: 0 <= i < |surviving| ==>
                           surviving[i].entityId in rows && rows[surviving[i].entityId] == surviving[i] && IsTracker(surviving[i], entryId)
    ensures forall uid :: uid in live ==> RowLive(rows, entryId, uid)
  {
    hide IsTracker;
  }

  lemma AllUnwanted(was: Rows, entryId: string, trackers: seq<Row>, clients: seq<Client>, options: Options)
    requires ListsTrackers(trackers, was, entryId) && Keyed(was) && options.Off()
    ensures Reconciled(was, was - (set i | 0 <= i < |trackers| :: trackers[i].entityId), entryId, clients, options)
  {
    hide IsTracker, MacOf, Untracked;
    var gone := set i | 0 <= i < |trackers| :: trackers[i].entityId;
    forall id | id in was ensures id in gone <==> Unwanted(was[id], entryId, clients, options) {
      if IsTracker(was[id], entryId) {
        var i :| 0 <= i < |trackers| && trackers[i] == was[id];
        assert trackers[i].entityId in gone;
      }
    }
  }

  lemma SurvivorsListed(migrated: Rows, rows: Rows, entryId: string, trackers: seq<Row>, surviving: seq<Row>, untracked: set<string>)
    requires ListsTrackers(trackers, migrated, entryId) && Keyed(migrated)
    requires forall id :: id in rows <==> id in migrated && !Drops(trackers, untracked, id)
    requires forall id :: id in rows ==> rows[id] == migrated[id]
    requires forall t :: t in surviving <==> t in trackers && MacOf(t.uniqueId) !in untracked
    ensures forall i :: 0 <= i < |surviving| ==>
                          surviving[i].entityId in rows && rows[surviving[i].entityId] == surviving[i] && IsTracker(surviving[i], entryId)
    ensures forall id :: id in rows && IsTracker(rows[id], entryId) ==> rows[id] in surviving
  {
    hide IsTracker, MacOf;
    forall i | 0 <= i < |surviving|
      ensures surviving[i].entityId in rows && rows[surviving[i].entityId] == surviving[i] && IsTracker(surviving[i], entryId)
    {
      var t := surviving[i];
      assert t in surviving && t in trackers;
      var k :| 0 <= k < |trackers| && trackers[k] == t;
      forall d | d in trackers && d.entityId == t.entityId ensures d == t {
        var j :| 0 <= j < |trackers| && trackers[j] == d;
        assert j == k;
      }
    }
    forall id | id in rows && IsTracker(rows[id], entryId) ensures rows[id] in surviving {
      assert migrated[id] in trackers;
      assert MacOf(migrated[id].uniqueId) in untracked ==> Drops(trackers, untracked, id);
    }
  }

  lemma RetainedLive(rows: Rows, entryId: string, surviving: seq<Row>, live: seq<string>)
    requires forall id :: id in rows && IsTracker(rows[id], entryId) ==> rows[id] in surviving
    requires |live| == |surviving| && forall i :: 0 <= i < |surviving| ==> live[i] == surviving[i].uniqueId
    ensures AllLive(rows, entryId, live)
  {
    hide IsTracker;
    forall id | id in rows && IsTracker(rows[id], entryId) ensures rows[id].uniqueId in live {
      var i :| 0 <= i < |surviving| && surviving[i] == rows[id];
      assert live[i] in live;
    }
  }

  /** All later updates of the coordinator: each calls the listener with its snapshot. */
  method Listen(platform: TrackerPlatform, snapshots: seq<seq<Client>>)
    requires platform.Valid()
    modifies platform
    // No ID is ever given twice, no entity goes, and every wanted client gets one.
    ensures platform.Valid() && old(platform.live) <= platform.live
    ensures forall i :: 0 <= i < |snapshots| ==> Wanted(snapshots[i], platform.options) <= platform.tracked
    // Entities are added for wanted clients that had none, and for nothing else.
    ensures forall mac :: mac in platform.tracked - old(platform.tracked) ==> WantedBySome(snapshots, |snapshots|, platform.options, mac)
  {
    hide MacOf, Wanted, Distinct, HasEntity;
    for i := 0 to |snapshots|
      invariant platform.Valid() && old(platform.live) <= platform.live && old(platform.tracked) <= platform.tracked
      invariant forall k :: 0 <= k < i ==> Wanted(snapshots[k], platform.options) <= platform.tracked
      invariant forall mac :: mac in platform.tracked - old(platform.tracked) ==> WantedBySome(snapshots, i, platform.options, mac)
    {
      ghost var was := platform.tracked;
      assert forall mac :: mac in was - old(platform.tracked) ==> WantedBySome(snapshots, i, platform.options, mac);
      platform.AddClients(snapshots[i]);
      forall mac | mac in platform.tracked - old(platform.tracked) ensures WantedBySome(snapshots, i + 1, platform.options, mac) {
        if mac in was {
          assert mac in was - old(platform.tracked);
          var k :| 0 <= k < i && mac in Wanted(snapshots[k], platform.options);
        } else {
          assert mac in Wanted(snapshots[i], platform.options);
        }
      }
    }
  }

  /** One of the first `n` snapshots wants a tracker for this MAC. */
  ghost predicate WantedBySome(snapshots: seq<seq<Client>>, n: nat, options: Options, mac: string)
    requires n <= |snapshots|
  {
    exists i :: 0 <= i < n && mac in Wanted(snapshots[i], options)
  }

  /** Later listener calls only add: rows that have an entity keep exactly that one. */
  lemma LiveGrows(rows: Rows, entryId: string, live: seq<string>, live': seq<string>)
    requires live <= live' && AllLive(rows, entryId, live)
    ensures AllLive(rows, entryId, live')
  {
    hide IsTracker;
    forall id | id in rows && IsTracker(rows[id], entryId) ensures rows[id].uniqueId in live' {
      var i :| 0 <= i < |live| && live[i] == rows[id].uniqueId;
      assert live'[i] == live[i];
    }
  }
}

/** Saving a changed connection: registry and config entry move together or stay together. */
module ConfigFlow {
  import opened Text
  import opened EntityRegistry
  import opened SiteIdentity
  import opened ConfigEntries
  import opened Rekey
  import opened RekeyEntities

  /** What became of the entry after a failed save. */
  datatype EntryRestore = NotNeeded | Restored | Refused | RestoreRaised

  datatype SaveResult =
    | Saved
    | IdentityRejected(reason: Rejection)
    | RekeyRaised
    | SaveRaised(restore: EntryRestore)

  /** The identity a save stores: the given one, or the one the entry has. */
  function NewUniqueId(entry: ConfigEntry, uniqueId: Option<string>): Option<string>
    reads entry
  {
    if uniqueId.Some? then uniqueId else entry.uniqueId
  }

  /**
   * `_async_update_site_entry_and_abort`: re-key the registry, save the entry, and
   * compensate both when the save raises.
   */
  method UpdateSiteEntry(registry: Registry, store: EntryStore, entry: ConfigEntry, data: Data, consoleId: Value,
                         uniqueId: Option<string>, families: Families := SUFFIXES)
    returns (result: SaveResult)
    requires registry.Valid()
    modifies registry, store, entry
    ensures registry.Valid() && Extends(old(registry.trace), registry.trace)
    // Nothing at all happens when the identity cannot be changed safely.
    ensures result.IdentityRejected? <==>
              Rejects(families, old(registry.rows), entry.entryId, Decide(old(entry.data), consoleId, Get(data, ApiKey)))
    ensures RefusedRightly(families, old(registry.rows), entry.entryId, old(entry.data), consoleId, Get(data, ApiKey),
                           if result.IdentityRejected? then Some(result.reason) else None)
    ensures result.IdentityRejected? || result.RekeyRaised? ==>
              entry.data == old(entry.data) && entry.uniqueId == old(entry.uniqueId) && store.entries == old(store.entries)
    ensures result.IdentityRejected? ==> registry.rows == old(registry.rows)
    ensures result.RekeyRaised? ==>
              NoneRaised(registry.trace, FirstRaise(registry.trace, |old(registry.trace)|) + 1)
              ==> registry.rows == old(registry.rows)
    // Success: both stores hold the new identity.
    ensures result.Saved? ==>
              var plan := PlanFor(families, old(registry.rows), entry.entryId, Decide(old(entry.data), consoleId, Get(data, ApiKey)));
              && registry.rows == Moved(old(registry.rows), plan, plan.Keys)
              && entry.data == data && entry.uniqueId == (if uniqueId.Some? then uniqueId else old(entry.uniqueId))
    ensures result.Saved? ==>
              DoneAsAsked(families, old(registry.rows), registry.rows, entry.entryId, old(entry.data), consoleId, Get(data, ApiKey))
    // Failure: the registry is rolled back whatever became of the entry ...
    ensures result.SaveRaised? ==>
              var plan := PlanFor(families, old(registry.rows), entry.entryId, Decide(old(entry.data), consoleId, Get(data, ApiKey)));
              && registry.rows == Moved(old(registry.rows), plan, Stuck(registry.trace, |old(registry.trace)|))
              && (NoneRaised(registry.trace, |old(registry.trace)|) ==> registry.rows == old(registry.rows))
    // ... and the entry is restored unless that would be unsafe or itself raises.
    ensures result.SaveRaised? && result.restore in {NotNeeded, Restored} ==>
              entry.data == old(entry.data) && entry.uniqueId == old(entry.uniqueId)
    ensures result.SaveRaised? && result.restore == EntryRestore.Refused ==>
              !store.Registered(entry) || store.ClaimedElsewhere(entry, old(entry.uniqueId))
    // Together: with no compensating call raising, an entry that is still ours is as it was.
    ensures result.SaveRaised? && result.restore != RestoreRaised && NoneRaised(registry.trace, |old(registry.trace)|)
            && store.Registered(entry) && !store.ClaimedElsewhere(entry, old(entry.uniqueId)) ==>
              && registry.rows == old(registry.rows)
              && entry.data == old(entry.data) && entry.uniqueId == old(entry.uniqueId)
  {
    hide SafePlan, Lists, Unique, Stuck, NoneRaised, NeverRefused, AlwaysUnique, RekeyPlan, Moved, Blocked, NormalizeNamespace, RefusedRightly,
      DoneAsAsked;
    var previousData, previousUniqueId := entry.data, entry.uniqueId;
    ghost var before, start := registry.rows, |registry.trace|;
    ghost var plan := PlanFor(families, before, entry.entryId, Decide(entry.data, consoleId, Get(data, ApiKey)));
    var rekeyed := RekeySiteEntities(registry, entry, consoleId, Get(data, ApiKey), families);
    match rekeyed {
      case Rejected(reason) =>
        return IdentityRejected(reason);
      case UpdateRaised =>
        return RekeyRaised;
      case RekeyDone(updates) =>
        ghost var moved, passed := registry.rows, registry.trace;
        var raised := store.Save(entry, data, NewUniqueId(entry, uniqueId));
        if !raised {
          return Saved;
        }
        var restore := NotNeeded;
        if entry.data != previousData || entry.uniqueId != previousUniqueId {
          if !store.Registered(entry) || store.ClaimedElsewhere(entry, previousUniqueId) {
            restore := EntryRestore.Refused;
          } else {
            var failed := store.Save(entry, previousData, previousUniqueId);
            restore := if failed then RestoreRaised else Restored;
          }
        }
        var _ := RestoreIdentities(registry, entry.entryId, updates, before, plan, plan.Keys);
        AppliedThenRollback(passed, registry.trace, start);
        return SaveRaised(restore);
    }
  }

  /** After a pass in which every call was applied, only the rollback's calls can be stuck. */
  lemma AppliedThenRollback(passed: seq<Step>, done: seq<Step>, start: nat)
    requires start <= |passed| && Extends(passed, done) && NoneRaised(passed, start)
    ensures Stuck(done, start) == Stuck(done, |passed|)
    ensures NoneRaised(done, start) == NoneRaised(done, |passed|)
  {
    assert forall k :: 0 <= k < |passed| ==> done[k] == passed[k];
  }
}

/** Moving one site entity from its pre-namespace identity to the namespaced one. */
module SiteMigration {
  import opened Text
  import opened EntityRegistry
  import opened SiteIdentity
  import opened Rekey

  /** The identity belongs to a row of this entry with this translation key. */
  ghost predicate Owned(rows: Rows, entryId: string, domain: string, uniqueId: string, key: string) {
    exists id :: id in rows && OwnedRow(rows[id], entryId, domain, uniqueId, key)
  }

  predicate OwnedRow(row: Row, entryId: string, domain: string, uniqueId: string, key: string) {
    && HasIdentity(row, domain, DOMAIN, uniqueId)
    && row.configEntryId == Some(entryId) && row.translationKey == Some(key)
  }

  /** A row of this entry whose translation key is missing holds the identity. */
  ghost predicate Unlabelled(rows: Rows, entryId: string, domain: string, uniqueId: string) {
    exists id :: id in rows && HasIdentity(rows[id], domain, DOMAIN, uniqueId)
                 && rows[id].configEntryId == Some(entryId) && Falsy(rows[id].translationKey)
  }

  /** A row that is not ours, or has another translation key, holds the identity. */
  ghost predicate Foreign(rows: Rows, entryId: string, domain: string, uniqueId: string, key: string) {
    exists id :: id in rows && HasIdentity(rows[id], domain, DOMAIN, uniqueId)
                 && (rows[id].configEntryId != Some(entryId) || rows[id].translationKey != Some(key))
  }

  /** An entity may be built under it: already ours, or the namespaced identity and free. */
  ghost predicate SafeToBuild(rows: Rows, entryId: string, domain: string, uniqueId: string, target: Option<string>, key: string) {
    || Owned(rows, entryId, domain, uniqueId, key)
    || (target == Some(uniqueId) && !Claimed(rows, domain, DOMAIN, uniqueId))
  }

  method SelectOwned(registry: Registry, entryId: string, domain: string, legacy: string, target: Option<string>, key: string)
    returns (selected: Option<string>)
    requires registry.Valid()
    ensures Owned(registry.rows, entryId, domain, legacy, key) ==> selected == Some(legacy)
    ensures !Owned(registry.rows, entryId, domain, legacy, key) && Unlabelled(registry.rows, entryId, domain, legacy) ==> selected == None
    ensures !Owned(registry.rows, entryId, domain, legacy, key) && !Unlabelled(registry.rows, entryId, domain, legacy) ==>
              selected == if target.Some? && Foreign(registry.rows, entryId, domain, target.value, key) then None else target
  {
    var legacyId := registry.FindEntityId(domain, legacy);
    if legacyId.Some? {
      var row := registry.rows[legacyId.value];
      HolderDecides(registry.rows, entryId, domain, legacy, key, legacyId.value);
      if row.configEntryId == Some(entryId) {
        if row.translationKey == Some(key) {
          return Some(legacy);
        }
        if Falsy(row.translationKey) {
          return None;
        }
      }
    }
    if target.None? {
      return None;
    }
    var targetId := registry.FindEntityId(domain, target.value);
    if targetId.Some? {
      var row := registry.rows[targetId.value];
      HolderDecides(registry.rows, entryId, domain, target.value, key, targetId.value);
      if row.configEntryId != Some(entryId) || row.translationKey != Some(key) {
        return None;
      }
    }
    return target;
  }

  /** As identities are unique, the one holder decides who owns it. */
  lemma HolderDecides(rows: Rows, entryId: string, domain: string, uniqueId: string, key: string, holder: string)
    requires Unique(rows) && holder in rows && HasIdentity(rows[holder], domain, DOMAIN, uniqueId)
    ensures Owned(rows, entryId, domain, uniqueId, key) <==> OwnedRow(rows[holder], entryId, domain, uniqueId, key)
    ensures Unlabelled(rows, entryId, domain, uniqueId)
            <==> rows[holder].configEntryId == Some(entryId) && Falsy(rows[holder].translationKey)
    ensures Foreign(rows, entryId, domain, uniqueId, key)
            <==> rows[holder].configEntryId != Some(entryId) || rows[holder].translationKey != Some(key)
  {
  }

  /** The outcome: the identity to build under (None: build nothing), or a propagated error. */
  datatype Migration = Build(uniqueId: Option<string>) | Propagated

  /** The only permitted change: our own legacy row takes the namespaced identity. */
  ghost predicate MigratedRow(was: Rows, now: Rows, entryId: string, domain: string, legacy: string, target: string, key: string) {
    exists id :: id in was && OwnedRow(was[id], entryId, domain, legacy, key) && now == Renamed(was, id, target)
  }

  /**
   * `async_migrate_site_entity`. `namespace` is None when the entry has none; a
   * namespace that is not in normal form is the builder's ValueError.
   */
  method MigrateSiteEntity(registry: Registry, entryId: string, domain: string, namespace: Option<string>, site: string, suffix: string)
    returns (result: Migration)
    requires registry.Valid()
    modifies registry
    ensures registry.Valid()
    // No foreign or other row changes, whatever fails.
    ensures registry.rows == old(registry.rows)
            || (namespace.Some?
                && MigratedRow(old(registry.rows), registry.rows, entryId, domain, LegacyUniqueId(site, suffix),
                               SiteUniqueId(namespace.value, site, suffix), suffix))
    // What it returns is safe to build under in the registry as it now is.
    ensures result.Build? && result.uniqueId.Some? ==>
              SafeToBuild(registry.rows, entryId, domain, result.uniqueId.value, Target(namespace, site, suffix), suffix)
    // After a failed update, only an identity that exists and is ours.
    ensures (exists k :: |old(registry.trace)| <= k < |registry.trace| && registry.trace[k].outcome != Applied)
            && result.Build? && result.uniqueId.Some? ==>
              Owned(registry.rows, entryId, domain, result.uniqueId.value, suffix)
    // A namespace that is not in normal form propagates before anything is touched.
    ensures namespace.Some? && namespace.value != "" && NormalizeNamespace(namespace, []) != namespace ==>
              result == Propagated && registry.rows == old(registry.rows) && registry.trace == old(registry.trace)
    // When no update failed, the rows found decide.
    ensures (namespace in {None, Some("")} || NormalizeNamespace(namespace, []) == namespace)
            && AllApplied(registry.trace, |old(registry.trace)|) ==>
              DecidedByRows(old(registry.rows), registry.rows, entryId, domain, site + "_" + suffix,
                            if namespace in {None, Some("")} then None else Some(namespace.value + "_" + site + "_" + suffix), suffix, result)
    // When one did, it propagates or the identity the row now has is used.
    ensures !AllApplied(registry.trace, |old(registry.trace)|) ==>
              namespace.Some?
              && result in {Propagated, Build(Some(if registry.rows == old(registry.rows) then site + "_" + suffix
                                                   else namespace.value + "_" + site + "_" + suffix))}
  {
    hide IsNamespace, LegacyUniqueId, Falsy, Target, DecidedByRows, MigratedRow, OwnedRow, Owned, Unlabelled, Foreign, NormalizeNamespace,
         BuildSiteUniqueId, SiteUniqueId;
    var legacy := LegacyUniqueId(site, suffix);
    var target := Target(namespace, site, suffix);
    Spelled(namespace, site, suffix);
    ghost var was := registry.rows;
    if namespace.Some? && namespace.value != "" && target.None? {
      return Propagated;
    }
    var effective := SelectOwned(registry, entryId, domain, legacy, target, suffix);
    if effective != Some(legacy) || target.None? || target == Some(legacy) {
      OwnedIsClaimed(was, entryId, domain, legacy, suffix);
      StayDecided(was, entryId, domain, legacy, target, suffix, effective);
      return Build(effective);
    }
    var occupant := registry.FindEntityId(domain, target.value);
    if occupant.Some? {
      StayDecided(was, entryId, domain, legacy, target, suffix, effective);
      return Build(Some(legacy));
    }
    var entityId := registry.FindEntityId(domain, legacy);
    OwnedIsClaimed(was, entryId, domain, legacy, suffix);
    if entityId.None? {
      return Build(None);
    }
    LegacyMoves(was, entryId, domain, legacy, target.value, suffix, entityId.value);
    var raised := registry.UpdateUniqueId(entityId.value, target.value);
    if raised == OtherError {
      return Propagated;
    }
    if raised == ValueError {
      effective := SelectOwned(registry, entryId, domain, legacy, target, suffix);
      if effective.None? {
        return Build(None);
      }
      var existing := registry.FindEntityId(domain, effective.value);
      return Build(if existing.Some? then effective else None);
    }
    return Build(target);
  }

  lemma Spelled(namespace: Option<string>, site: string, suffix: string)
    ensures LegacyUniqueId(site, suffix) == site + "_" + suffix
    ensures namespace in {None, Some("")} ==> Target(namespace, site, suffix) == None
    ensures namespace.Some? && namespace.value != "" ==>
              && SiteUniqueId(namespace.value, site, suffix) == namespace.value + "_" + site + "_" + suffix
              && Target(namespace, site, suffix)
                 == if NormalizeNamespace(namespace, []) == namespace then Some(namespace.value + "_" + site + "_" + suffix) else None
  {
    hide NormalizeNamespace;
    if namespace.Some? {
      var n := namespace.value;
      assert n + "_" + (site + "_" + suffix) == n + "_" + site + "_" + suffix;
    }
  }

  lemma OwnedIsClaimed(rows: Rows, entryId: string, domain: string, uniqueId: string, key: string)
    ensures Owned(rows, entryId, domain, uniqueId, key) ==> Claimed(rows, domain, DOMAIN, uniqueId)
  {
  }

  lemma StayDecided(rows: Rows, entryId: string, domain: string, legacy: string, target: Option<string>, key: string,
                    selected: Option<string>)
    requires Owned(rows, entryId, domain, legacy, key) ==>
               selected == Some(legacy) && (target.None? || Claimed(rows, domain, DOMAIN, target.value))
    requires !Owned(rows, entryId, domain, legacy, key) && Unlabelled(rows, entryId, domain, legacy) ==> selected == None
    requires !Owned(rows, entryId, domain, legacy, key) && !Unlabelled(rows, entryId, domain, legacy) ==>
               selected == if target.Some? && Foreign(rows, entryId, domain, target.value, key) then None else target
    ensures DecidedByRows(rows, rows, entryId, domain, legacy, target, key, Build(selected))
    ensures selected.Some? ==> SafeToBuild(rows, entryId, domain, selected.value, target, key)
  {
    hide Owned, Unlabelled, Foreign, Claimed;
    if selected.Some? && selected == target {
      NotForeign(rows, entryId, domain, selected.value, key);
    }
  }

  lemma NotForeign(rows: Rows, entryId: string, domain: string, uniqueId: string, key: string)
    ensures !Foreign(rows, entryId, domain, uniqueId, key) && Claimed(rows, domain, DOMAIN, uniqueId) ==>
              Owned(rows, entryId, domain, uniqueId, key)
  {
  }

  /** Moving the owned row to a free target is the one change allowed, and the row is ours before and after. */
  lemma LegacyMoves(rows: Rows, entryId: string, domain: string, legacy: string, target: string, key: string, holder: string)
    requires Unique(rows) && Owned(rows, entryId, domain, legacy, key) && !Claimed(rows, domain, DOMAIN, target)
    requires holder in rows && HasIdentity(rows[holder], domain, DOMAIN, legacy)
    ensures !ClaimedByOther(rows, holder, target)
    ensures var now := Renamed(rows, holder, target);
      && MigratedRow(rows, now, entryId, domain, legacy, target, key)
      && DecidedByRows(rows, now, entryId, domain, legacy, Some(target), key, Build(Some(target)))
      && Owned(now, entryId, domain, target, key) && !Claimed(now, domain, DOMAIN, legacy)
      && !Owned(now, entryId, domain, legacy, key) && !Unlabelled(now, entryId, domain, legacy)
      && Claimed(now, domain, DOMAIN, target) && !Foreign(now, entryId, domain, target, key) && now != rows
  {
    HolderDecides(rows, entryId, domain, legacy, key, holder);
    var now := Renamed(rows, holder, target);
    assert OwnedRow(now[holder], entryId, domain, target, key);
    assert MigratedRow(rows, now, entryId, domain, legacy, target, key);
  }

  ghost predicate AllApplied(trace: seq<Step>, start: nat) {
    forall k :: start <= k < |trace| ==> trace[k].outcome == Applied
  }

  /** Our own legacy row moves to a free target and stays otherwise; without one, an ambiguous or foreign row forbids building. */
  ghost predicate DecidedByRows(was: Rows, now: Rows, entryId: string, domain: string, legacy: string, target: Option<string>,
                                key: string, result: Migration)
  {
    var moves := Owned(was, entryId, domain, legacy, key) && target.Some? && !Claimed(was, domain, DOMAIN, target.value);
    && (moves ==> MigratedRow(was, now, entryId, domain, legacy, target.value, key) && result == Build(target))
    && (!moves ==> now == was)
    && (!moves && Owned(was, entryId, domain, legacy, key) ==> result == Build(Some(legacy)))
    && (!Owned(was, entryId, domain, legacy, key) && Unlabelled(was, entryId, domain, legacy) ==> result == Build(None))
    && (!Owned(was, entryId, domain, legacy, key) && !Unlabelled(was, entryId, domain, legacy) ==>
          result == Build(if target.Some? && Foreign(was, entryId, domain, target.value, key) then None else target))
  }

  /** The namespaced identity, when there is one to move to. */
  function Target(namespace: Option<string>, site: string, suffix: string): Option<string> {
    if namespace.Some? && namespace.value != "" then BuildSiteUniqueId(namespace.value, site, suffix) else None
  }
}

/** Home Assistant's entity registry, as far as the integration uses it. */
module EntityRegistry {
  import opened Text

  const DOMAIN := "unifi_insights"

  /** An immutable snapshot of one registry row. */
  datatype Row = Row(
    id: string,
    entityId: string,
    domain: string,
    platform: string,
    uniqueId: string,
    configEntryId: Option<string>,
    translationKey: Option<string>
  )

  /** The rows by entity ID. */
  type Rows = map<string, Row>

  predicate HasIdentity(row: Row, domain: string, platform: string, uniqueId: string) {
    row.domain == domain && row.platform == platform && row.uniqueId == uniqueId
  }

  ghost predicate Claimed(rows: Rows, domain: string, platform: string, uniqueId: string) {
    exists id :: id in rows && HasIdentity(rows[id], domain, platform, uniqueId)
  }

  /** The identity is claimed by a row other than `entityId`. */
  ghost predicate ClaimedByOther(rows: Rows, entityId: string, uniqueId: string)
    requires entityId in rows
  {
    exists id :: id in rows && id != entityId
                 && HasIdentity(rows[id], rows[entityId].domain, rows[entityId].platform, uniqueId)
  }

  ghost predicate Keyed(rows: Rows) {
    forall id :: id in rows ==> rows[id].entityId == id
  }

  /** (domain, platform, unique_id) identifies at most one row. */
  ghost predicate Unique(rows: Rows) {
    forall a, b | a in rows && b in rows ::
      HasIdentity(rows[a], rows[b].domain, rows[b].platform, rows[b].uniqueId) ==> a == b
  }

  function Renamed(rows: Rows, entityId: string, uniqueId: string): Rows
    requires entityId in rows
  {
    rows[entityId := rows[entityId].(uniqueId := uniqueId)]
  }

  /** How one update ended. `Refused` is the registry's own occupied-identity error. */
  datatype Outcome = Applied | Refused | FailedBefore | FailedAfter

  /** One update call: what was asked, how it ended, and the rows it left. */
  datatype Step = Step(entityId: string, uniqueId: string, outcome: Outcome, rows: Rows)

  ghost predicate StepFrom(before: Rows, step: Step) {
    match step.outcome
    case Applied | FailedAfter =>
      && step.entityId in before
      && !ClaimedByOther(before, step.entityId, step.uniqueId)
      && step.rows == Renamed(before, step.entityId, step.uniqueId)
    case Refused =>
      && step.entityId in before
      && ClaimedByOther(before, step.entityId, step.uniqueId)
      && step.rows == before
    case FailedBefore => step.rows == before
  }

  /** What an update raised. Callers tell `ValueError` from other exceptions. */
  datatype Raised = Nothing | ValueError | OtherError

  class Registry {
    var rows: Rows
    // Every update call so far, oldest first.
    ghost var trace: seq<Step>

    ghost predicate Valid()
      reads this
    {
      Keyed(rows) && Unique(rows)
    }

    constructor ()
      ensures Valid() && rows == map[] && trace == []
    {
      rows, trace := map[], [];
    }

    /** `async_get_entity_id` for this integration's platform. */
    method FindEntityId(domain: string, uniqueId: string) returns (found: Option<string>)
      ensures found.Some? ==> found.value in rows && HasIdentity(rows[found.value], domain, DOMAIN, uniqueId)
      ensures found.None? ==> !Claimed(rows, domain, DOMAIN, uniqueId)
    {
      if id :| id in rows && HasIdentity(rows[id], domain, DOMAIN, uniqueId) {
        return Some(id);
      }
      return None;
    }

    /** The rows of one config entry, in some order, each exactly once. */
    method EntriesForConfigEntry(entryId: string) returns (entries: seq<Row>)
      requires Valid()
      ensures forall i :: 0 <= i < |entries| ==>
                            entries[i].entityId in rows && rows[entries[i].entityId] == entries[i]
                            && entries[i].configEntryId == Some(entryId)
      ensures forall i, j :: 0 <= i < j < |entries| ==> entries[i].entityId != entries[j].entityId
      ensures forall id :: id in rows && rows[id].configEntryId == Some(entryId) ==> rows[id] in entries
    {
      entries := [];
      var pending := set id | id in rows && rows[id].configEntryId == Some(entryId);
      while pending != {}
        invariant forall id :: id in pending ==> id in rows && rows[id].configEntryId == Some(entryId)
        invariant forall i :: 0 <= i < |entries| ==>
                                entries[i].entityId in rows && rows[entries[i].entityId] == entries[i]
                                && entries[i].configEntryId == Some(entryId)
                                && entries[i].entityId !in pending
        invariant forall i, j :: 0 <= i < j < |entries| ==> entries[i].entityId != entries[j].entityId
        invariant forall id :: id in rows && rows[id].configEntryId == Some(entryId) ==>
                                 id in pending || rows[id] in entries
        decreases pending
      {
        var id :| id in pending;
        pending := pending - {id};
        entries := entries + [rows[id]];
      }
    }

    /**
     * `async_update_entity(entity_id, new_unique_id=...)`. An occupied identity is
     * refused; any other failure may strike before or after the row changed.
     */
    method UpdateUniqueId(entityId: string, uniqueId: string) returns (raised: Raised)
      requires Valid()
      modifies this
      ensures Valid()
      ensures |trace| == |old(trace)| + 1 && old(trace) == trace[..|old(trace)|]
      ensures var step := trace[|old(trace)|];
              && step.entityId == entityId && step.uniqueId == uniqueId && step.rows == rows
              && StepFrom(old(rows), step)
              && (step.outcome == Applied <==> raised == Nothing)
    {
      ghost var outcome := FailedBefore;
      if entityId !in rows {
        raised := OtherError;
      } else if other :| other in rows && other != entityId
                         && HasIdentity(rows[other], rows[entityId].domain, rows[entityId].platform, uniqueId) {
        raised, outcome := ValueError, Refused;
      } else {
        raised := *;
        var mutates: bool := *;
        if raised == Nothing || mutates {
          rows := Renamed(rows, entityId, uniqueId);
          outcome := if raised == Nothing then Applied else FailedAfter;
        }
      }
      trace := trace + [Step(entityId, uniqueId, outcome, rows)];
    }

    /** `async_remove`. */
    method Remove(entityId: string)
      requires Valid()
      modifies this`rows
      ensures Valid()
      ensures rows == old(rows) - {entityId}
    {
      rows := rows - {entityId};
    }
  }
}

/** `async_rekey_site_entities`: all rows of an entry move to the new namespace, or none does. */
module RekeyEntities {
  import opened Text
  import opened EntityRegistry
  import opened SiteIdentity
  import opened ConfigEntries
  import opened Rekey

  // ---------- Which namespaces ----------

  datatype Rejection = UnsafeNamespace | PendingCredentialConflict | MissingMetadata | AmbiguousMetadata | OccupiedTarget

  datatype Decision = Noop | Reject(reason: Rejection) | Change(old_: string, new_: string)

  function Decide(data: Data, newConsoleId: Value, pendingApiKey: Value): Decision {
    var console, apiKey, pending := TextOf(Get(data, ConsoleId)), TextOf(Get(data, ApiKey)), TextOf(pendingApiKey);
    var old_ := NormalizeNamespace(console, [apiKey]);
    var new_ := NormalizeNamespace(TextOf(newConsoleId), [apiKey, pending]);
    if new_ == None then
      if newConsoleId in {Absent, Str("")} && old_ == None then Noop else Reject(UnsafeNamespace)
    else if old_ != None && NormalizeNamespace(console, [apiKey, pending]) == None then Reject(PendingCredentialConflict)
    else if old_ == None || old_ == new_ then Noop
    else Change(old_.value, new_.value)
  }

  lemma DecidedNamespaces(data: Data, newConsoleId: Value, pendingApiKey: Value)
    ensures var d := Decide(data, newConsoleId, pendingApiKey);
      d.Change? ==> IsNamespace(d.old_) && IsNamespace(d.new_) && d.old_ != d.new_
  {
    var apiKey, pending := TextOf(Get(data, ApiKey)), TextOf(pendingApiKey);
    NormalizedIsNamespace(TextOf(Get(data, ConsoleId)), [apiKey]);
    NormalizedIsNamespace(TextOf(newConsoleId), [apiKey, pending]);
  }

  // ---------- The change, read off the inputs ----------

  /** The stored identity in normal form, under the stored key. */
  function StoredNamespace(data: Data): Option<string> {
    NormalizeNamespace(TextOf(Get(data, ConsoleId)), [TextOf(Get(data, ApiKey))])
  }

  /** The new identity in normal form, under the stored and the pending key. */
  function AskedNamespace(data: Data, newConsoleId: Value, pendingApiKey: Value): Option<string> {
    NormalizeNamespace(TextOf(newConsoleId), [TextOf(Get(data, ApiKey)), TextOf(pendingApiKey)])
  }

  /** The stored identity is none of the pending key either. */
  predicate SurvivesPending(data: Data, pendingApiKey: Value) {
    NormalizeNamespace(TextOf(Get(data, ConsoleId)), [TextOf(Get(data, ApiKey)), TextOf(pendingApiKey)]).Some?
  }

  /** A change from `o` to `n` is to be made. */
  predicate Asks(data: Data, newConsoleId: Value, pendingApiKey: Value, o: string, n: string) {
    && StoredNamespace(data) == Some(o) && AskedNamespace(data, newConsoleId, pendingApiKey) == Some(n)
    && SurvivesPending(data, pendingApiKey) && o != n
  }

  /** There is no new identity, though one is stored or something was given for it. */
  predicate AsksUnsafe(data: Data, newConsoleId: Value, pendingApiKey: Value) {
    && AskedNamespace(data, newConsoleId, pendingApiKey).None?
    && (newConsoleId !in {Absent, Str("")} || StoredNamespace(data).Some?)
  }

  /** There is a new identity, but the stored one is the pending key's. */
  predicate AsksConflict(data: Data, newConsoleId: Value, pendingApiKey: Value) {
    && AskedNamespace(data, newConsoleId, pendingApiKey).Some? && StoredNamespace(data).Some?
    && !SurvivesPending(data, pendingApiKey)
  }

  /** From the stored namespace to the new one, exactly when asked; nothing to do in all other cases that are not refused. */
  lemma DecidedExactly(data: Data, newConsoleId: Value, pendingApiKey: Value)
    ensures forall o, n :: Decide(data, newConsoleId, pendingApiKey) == Change(o, n) <==> Asks(data, newConsoleId, pendingApiKey, o, n)
    ensures Decide(data, newConsoleId, pendingApiKey) == Reject(UnsafeNamespace) <==> AsksUnsafe(data, newConsoleId, pendingApiKey)
    ensures Decide(data, newConsoleId, pendingApiKey) == Reject(PendingCredentialConflict)
            <==> AsksConflict(data, newConsoleId, pendingApiKey)
    ensures forall reason :: Decide(data, newConsoleId, pendingApiKey) == Reject(reason) ==>
                               reason in {UnsafeNamespace, PendingCredentialConflict}
  {
    hide NormalizeNamespace;
  }

  /** Some row of the entry stands in the way of the change, for this reason. */
  ghost predicate Obstructed(families: Families, rows: Rows, entryId: string, o: string, n: string, reason: Rejection) {
    exists id :: id in rows && rows[id].configEntryId == Some(entryId) && Obstructs(families, rows, rows[id], o, n, reason)
  }

  ghost predicate Obstructs(families: Families, rows: Rows, row: Row, o: string, n: string, reason: Rejection) {
    match reason
    case MissingMetadata => LacksMetadata(families, row, o)
    case AmbiguousMetadata => Contradicts(families, row, o)
    case OccupiedTarget =>
      exists site, key :: Names(families, row, o, site, key) && Claimed(rows, row.domain, DOMAIN, n + "_" + site + "_" + key)
    case _ => false
  }

  /** Of the entry's rows exactly those that name a site under `o` changed: they now name it under `n`. */
  ghost predicate Renamespaced(families: Families, was: Rows, now: Rows, entryId: string, o: string, n: string) {
    && now.Keys == was.Keys
    && forall id :: id in was ==>
                      && (forall site, key :: was[id].configEntryId == Some(entryId) && Names(families, was[id], o, site, key) ==>
                                                now[id] == was[id].(uniqueId := n + "_" + site + "_" + key))
                      && (was[id].configEntryId != Some(entryId) || (forall site, key :: !Names(families, was[id], o, site, key)) ==>
                            now[id] == was[id])
  }

  /** The rows after a change that was not refused and did not fail. */
  ghost predicate DoneAsAsked(families: Families, was: Rows, now: Rows, entryId: string, data: Data, newConsoleId: Value, pendingApiKey: Value) {
    var o, n := StoredNamespace(data), AskedNamespace(data, newConsoleId, pendingApiKey);
    if o.Some? && n.Some? && SurvivesPending(data, pendingApiKey) && o != n
    then Renamespaced(families, was, now, entryId, o.value, n.value)
    else now == was
  }

  /** The reason of a refusal is a true one, and whatever stands in the way is refused. */
  ghost predicate RefusedRightly(families: Families, rows: Rows, entryId: string, data: Data, newConsoleId: Value, pendingApiKey: Value,
                                 refusal: Option<Rejection>) {
    && (refusal == Some(UnsafeNamespace) <==> AsksUnsafe(data, newConsoleId, pendingApiKey))
    && (refusal == Some(PendingCredentialConflict) <==> AsksConflict(data, newConsoleId, pendingApiKey))
    && (forall reason :: refusal == Some(reason) && reason in {MissingMetadata, AmbiguousMetadata, OccupiedTarget} ==>
                           exists o, n :: Asks(data, newConsoleId, pendingApiKey, o, n) && Obstructed(families, rows, entryId, o, n, reason))
    && (forall o, n, reason :: Asks(data, newConsoleId, pendingApiKey, o, n) && Obstructed(families, rows, entryId, o, n, reason) ==>
                                 refusal.Some?)
  }

  // ---------- The plan ----------

  ghost function RekeyPlan(families: Families, rows: Rows, entryId: string, old_: string, new_: string): Plan {
    map id | id in rows && Moves(families, rows[id], entryId, old_) :: MovedId(families, rows[id], old_, new_)
  }

  ghost function PlanFor(families: Families, rows: Rows, entryId: string, decision: Decision): Plan {
    if decision.Change? then RekeyPlan(families, rows, entryId, decision.old_, decision.new_) else map[]
  }

  /** Some row of the entry cannot be moved: its metadata is unclear or its target is taken. */
  ghost predicate Blocked(families: Families, rows: Rows, entryId: string, old_: string, new_: string) {
    exists id :: id in rows && rows[id].configEntryId == Some(entryId) && BlockedRow(families, rows, rows[id], old_, new_)
  }

  ghost predicate BlockedRow(families: Families, rows: Rows, row: Row, old_: string, new_: string) {
    match Judge(families, row, old_)
    case Leave => false
    case MetadataMissing | Ambiguous => true
    case Rename(site, key) => Claimed(rows, row.domain, DOMAIN, SiteUniqueId(new_, site, key))
  }

  /** Blocked means obstructed for some reason. */
  lemma BlockedExactly(families: Families, rows: Rows, entryId: string, o: string, n: string)
    ensures Blocked(families, rows, entryId, o, n) <==> exists reason :: Obstructed(families, rows, entryId, o, n, reason)
  {
    hide BlockedRow, Obstructs;
    if id :| id in rows && rows[id].configEntryId == Some(entryId) && BlockedRow(families, rows, rows[id], o, n) {
      BlockedRowExactly(families, rows, rows[id], o, n);
      var reason :| Obstructs(families, rows, rows[id], o, n, reason);
      assert Obstructed(families, rows, entryId, o, n, reason);
    }
    if reason :| Obstructed(families, rows, entryId, o, n, reason) {
      var id :| id in rows && rows[id].configEntryId == Some(entryId) && Obstructs(families, rows, rows[id], o, n, reason);
      BlockedRowExactly(families, rows, rows[id], o, n);
    }
  }

  lemma BlockedRowExactly(families: Families, rows: Rows, row: Row, o: string, n: string)
    ensures BlockedRow(families, rows, row, o, n) <==> exists reason :: Obstructs(families, rows, row, o, n, reason)
    ensures Judge(families, row, o) == MetadataMissing ==> Obstructs(families, rows, row, o, n, MissingMetadata)
    ensures Judge(families, row, o) == Ambiguous ==> Obstructs(families, rows, row, o, n, AmbiguousMetadata)
    ensures var v := Judge(families, row, o);
      v.Rename? && Claimed(rows, row.domain, DOMAIN, SiteUniqueId(n, v.site, v.key)) ==> Obstructs(families, rows, row, o, n, OccupiedTarget)
  {
    hide Judge, Claimed, LacksMetadata, Contradicts, Names;
    Verdicts(families, row, o);
    var v := Judge(families, row, o);
    assert v.Rename? ==> Names(families, row, o, v.site, v.key);
    forall site, key ensures SiteUniqueId(n, site, key) == n + "_" + site + "_" + key {
      SiteIdParts(n, site, key);
    }
    if BlockedRow(families, rows, row, o, n) {
      match v
      case MetadataMissing => assert Obstructs(families, rows, row, o, n, MissingMetadata);
      case Ambiguous => assert Obstructs(families, rows, row, o, n, AmbiguousMetadata);
      case Rename(_, _) => assert Obstructs(families, rows, row, o, n, OccupiedTarget);
    }
  }

  lemma SiteIdParts(n: string, site: string, key: string)
    ensures SiteUniqueId(n, site, key) == n + "_" + site + "_" + key
  {
  }

  /** A completed plan has renamed exactly the rows that name a site. */
  lemma PlanRenamespaces(families: Families, rows: Rows, entryId: string, o: string, n: string)
    ensures var plan := RekeyPlan(families, rows, entryId, o, n);
      Renamespaced(families, rows, Moved(rows, plan, plan.Keys), entryId, o, n)
  {
    hide Judge, Names;
    var plan := RekeyPlan(families, rows, entryId, o, n);
    forall id | id in rows ensures
        && (forall site, key :: rows[id].configEntryId == Some(entryId) && Names(families, rows[id], o, site, key) ==>
                                  Moved(rows, plan, plan.Keys)[id] == rows[id].(uniqueId := n + "_" + site + "_" + key))
        && (rows[id].configEntryId != Some(entryId) || (forall site, key :: !Names(families, rows[id], o, site, key)) ==>
              Moved(rows, plan, plan.Keys)[id] == rows[id])
    {
      Verdicts(families, rows[id], o);
      var v := Judge(families, rows[id], o);
      if v.Rename? {
        SiteIdParts(n, v.site, v.key);
        assert Names(families, rows[id], o, v.site, v.key);
      }
    }
  }

  /** Replacing the prefix is injective, so an unblocked plan is safe. */
  lemma UnblockedPlanIsSafe(families: Families, rows: Rows, entryId: string, old_: string, new_: string)
    requires Unique(rows) && !Blocked(families, rows, entryId, old_, new_)
    ensures SafePlan(rows, entryId, RekeyPlan(families, rows, entryId, old_, new_))
  {
    var plan := RekeyPlan(families, rows, entryId, old_, new_);
    forall id, other | id in plan && other in rows
      ensures SameFamily(rows[id], rows[other]) ==> rows[other].uniqueId != plan[id]
    {
      assert !BlockedRow(families, rows, rows[id], old_, new_);
      assert !HasIdentity(rows[other], rows[id].domain, DOMAIN, plan[id]);
    }
    forall a, b | a in plan && b in plan && a != b
      ensures SameFamily(rows[a], rows[b]) ==> plan[a] != plan[b]
    {
      if SameFamily(rows[a], rows[b]) {
        TargetsApart(families, rows, old_, new_, a, b);
      }
    }
  }

  lemma TargetsApart(families: Families, rows: Rows, old_: string, new_: string, a: string, b: string)
    requires Unique(rows) && a in rows && b in rows && a != b
    requires SameFamily(rows[a], rows[b])
    requires Judge(families, rows[a], old_).Rename? && Judge(families, rows[b], old_).Rename?
    ensures MovedId(families, rows[a], old_, new_) != MovedId(families, rows[b], old_, new_)
  {
    JudgedRename(families, rows[a], old_);
    JudgedRename(families, rows[b], old_);
    var v, w := Judge(families, rows[a], old_), Judge(families, rows[b], old_);
    assert !HasIdentity(rows[a], rows[b].domain, rows[b].platform, rows[b].uniqueId);
    PrefixInjective(new_ + "_", LegacyUniqueId(v.site, v.key), LegacyUniqueId(w.site, w.key));
  }

  lemma PrefixInjective(prefix: string, s: string, t: string)
    requires s != t
    ensures prefix + s != prefix + t
  {
    assert s == (prefix + s)[|prefix|..] && t == (prefix + t)[|prefix|..];
  }

  // ---------- Preflight ----------

  datatype Preflight = Ready(updates: seq<Pending>) | Refuse(reason: Rejection)

  /** The first `n` entities pass the preflight, and `updates` lists those of them that move. */
  ghost predicate Screened(families: Families, rows: Rows, old_: string, new_: string, entities: seq<Row>, n: nat, updates: seq<Pending>)
    requires n <= |entities|
  {
    && (forall k :: 0 <= k < n ==> !BlockedRow(families, rows, entities[k], old_, new_))
    && (forall k :: 0 <= k < n && Judge(families, entities[k], old_).Rename? ==> Captures(updates, entities[k]))
    && (forall u :: u in updates ==>
                      && u.previous in entities[..n]
                      && Judge(families, u.previous, old_).Rename?
                      && u.target == MovedId(families, u.previous, old_, new_))
  }

  ghost predicate Captures(updates: seq<Pending>, row: Row) {
    exists u :: u in updates && u.previous == row
  }

  lemma ScreenedNext(families: Families, rows: Rows, old_: string, new_: string, entities: seq<Row>, n: nat,
                     updates: seq<Pending>, updates': seq<Pending>)
    requires n < |entities| && Screened(families, rows, old_, new_, entities, n, updates)
    requires !BlockedRow(families, rows, entities[n], old_, new_)
    requires updates' == if Judge(families, entities[n], old_).Rename?
                         then updates + [Pending(entities[n], MovedId(families, entities[n], old_, new_))]
                         else updates
    ensures Screened(families, rows, old_, new_, entities, n + 1, updates')
  {
    hide BlockedRow, Judge, MovedId;
    assert entities[..n + 1] == entities[..n] + [entities[n]];
    forall k | 0 <= k < n + 1 && Judge(families, entities[k], old_).Rename? ensures Captures(updates', entities[k]) {
      if k < n {
        var u :| u in updates && u.previous == entities[k];
        assert u in updates';
      } else {
        assert Pending(entities[n], MovedId(families, entities[n], old_, new_)) in updates';
      }
    }
  }

  lemma ScreenedAll(families: Families, rows: Rows, entryId: string, old_: string, new_: string, entities: seq<Row>, updates: seq<Pending>)
    requires forall i :: 0 <= i < |entities| ==>
                           entities[i].entityId in rows && rows[entities[i].entityId] == entities[i]
                           && entities[i].configEntryId == Some(entryId)
    requires forall id :: id in rows && rows[id].configEntryId == Some(entryId) ==> rows[id] in entities
    requires Screened(families, rows, old_, new_, entities, |entities|, updates) && DistinctRows(updates) && Keyed(rows)
    ensures !Blocked(families, rows, entryId, old_, new_)
    ensures Lists(updates, rows, RekeyPlan(families, rows, entryId, old_, new_))
  {
    hide BlockedRow, Judge, MovedId;
    var plan := RekeyPlan(families, rows, entryId, old_, new_);
    forall id | id in rows && rows[id].configEntryId == Some(entryId)
      ensures !BlockedRow(families, rows, rows[id], old_, new_)
      ensures id in plan ==> exists n :: 0 <= n < |updates| && updates[n].previous.entityId == id
    {
      var k :| 0 <= k < |entities| && entities[k] == rows[id];
      if id in plan {
        var u :| u in updates && u.previous == entities[k];
        var n :| 0 <= n < |updates| && updates[n] == u;
      }
    }
    forall i | 0 <= i < |updates| ensures updates[i].previous.entityId in plan && plan[updates[i].previous.entityId] == updates[i].target {
      assert updates[i] in updates;
    }
  }

  method CheckRows(registry: Registry, families: Families, entryId: string, old_: string, new_: string)
    returns (result: Preflight)
    requires registry.Valid() && IsNamespace(old_) && IsNamespace(new_)
    ensures result.Refuse? <==> Blocked(families, registry.rows, entryId, old_, new_)
    ensures result.Refuse? ==> Obstructed(families, registry.rows, entryId, old_, new_, result.reason)
    ensures result.Ready? ==> Lists(result.updates, registry.rows, RekeyPlan(families, registry.rows, entryId, old_, new_))
  {
    hide Judge, SiteUniqueId, IsNamespace, HasIdentity, Unique, Screened, RekeyPlan, Lists, Obstructs;
    var entities := registry.EntriesForConfigEntry(entryId);
    var updates: seq<Pending> := [];
    ghost var rows := registry.rows;
    assert Screened(families, rows, old_, new_, entities, 0, updates) by {
      ScreenedNone(families, rows, old_, new_, entities);
    }
    for i := 0 to |entities|
      invariant Screened(families, rows, old_, new_, entities, i, updates)
      invariant forall n :: 0 <= n < |updates| ==>
                              forall k :: i <= k < |entities| ==> updates[n].previous.entityId != entities[k].entityId
      invariant DistinctRows(updates)
    {
      var entity := entities[i];
      ghost var listed := updates;
      BlockedRowExactly(families, rows, entity, old_, new_);
      match Judge(families, entity, old_) {
        case Leave =>
        case MetadataMissing =>
          assert BlockedRow(families, rows, rows[entity.entityId], old_, new_);
          return Refuse(MissingMetadata);
        case Ambiguous =>
          assert BlockedRow(families, rows, rows[entity.entityId], old_, new_);
          return Refuse(AmbiguousMetadata);
        case Rename(site, key) =>
          var built := BuildSiteUniqueId(new_, site, key);
          var target := built.value;
          var holder := registry.FindEntityId(entity.domain, target);
          if holder.Some? {
            assert BlockedRow(families, rows, rows[entity.entityId], old_, new_);
            return Refuse(OccupiedTarget);
          }
          updates := updates + [Pending(entity, target)];
      }
      ScreenedNext(families, rows, old_, new_, entities, i, listed, updates);
    }
    ScreenedAll(families, rows, entryId, old_, new_, entities, updates);
    return Ready(updates);
  }

  lemma ScreenedNone(families: Families, rows: Rows, old_: string, new_: string, entities: seq<Row>)
    ensures Screened(families, rows, old_, new_, entities, 0, [])
  {
  }

  // ---------- Update pass ----------

  /** The first update call since `start` that raised. */
  ghost function FirstRaise(trace: seq<Step>, start: nat): (f: nat)
    requires start <= |trace|
    ensures start <= f <= |trace| && forall k :: start <= k < f ==> trace[k].outcome == Applied
    ensures f < |trace| ==> trace[f].outcome != Applied
    decreases |trace| - start
  {
    if start == |trace| || trace[start].outcome != Applied then start else FirstRaise(trace, start + 1)
  }

  lemma FirstRaiseAt(trace: seq<Step>, start: nat, at: nat)
    requires start <= at < |trace| && trace[at].outcome != Applied
    requires forall k :: start <= k < at ==> trace[k].outcome == Applied
    ensures FirstRaise(trace, start) == at
  {
  }

  /** The part of a plan that the first `n` updates list. */
  ghost function Attempted(updates: seq<Pending>, plan: Plan, n: nat): (part: Plan)
    requires n <= |updates|
    ensures part.Keys <= plan.Keys && forall id :: id in part ==> part[id] == plan[id]
  {
    map id | id in plan && ListedBefore(updates, n, id) :: plan[id]
  }

  ghost predicate ListedBefore(updates: seq<Pending>, n: nat, id: string)
    requires n <= |updates|
  {
    exists k :: 0 <= k < n && updates[k].previous.entityId == id
  }

  lemma AttemptedSafe(before: Rows, entryId: string, plan: Plan, updates: seq<Pending>, n: nat)
    requires SafePlan(before, entryId, plan) && n <= |updates|
    ensures SafePlan(before, entryId, Attempted(updates, plan, n))
  {
  }

  lemma AttemptedLists(before: Rows, plan: Plan, updates: seq<Pending>, n: nat)
    requires Lists(updates, before, plan) && n <= |updates|
    ensures Lists(updates[..n], before, Attempted(updates, plan, n))
    ensures Attempted(updates, plan, |updates|) == plan
  {
    var part, prefix := Attempted(updates, plan, n), updates[..n];
    forall id | id in part ensures exists k :: 0 <= k < n && prefix[k].previous.entityId == id {
      var k :| 0 <= k < n && updates[k].previous.entityId == id;
      assert prefix[k].previous.entityId == id;
    }
    forall id | id in plan ensures ListedBefore(updates, |updates|, id) {
    }
  }

  lemma AttemptedNext(before: Rows, plan: Plan, updates: seq<Pending>, n: nat)
    requires Lists(updates, before, plan) && n < |updates|
    ensures var u := updates[n]; var id := u.previous.entityId;
      && id in plan && id in before
      && Attempted(updates, plan, n + 1).Keys == Attempted(updates, plan, n).Keys + {id}
      && id !in Attempted(updates, plan, n)
      && Moved(before, plan, Attempted(updates, plan, n + 1).Keys)
         == Renamed(Moved(before, plan, Attempted(updates, plan, n).Keys), id, u.target)
  {
    var id := updates[n].previous.entityId;
    forall other ensures ListedBefore(updates, n + 1, other) <==> other == id || ListedBefore(updates, n, other) {
    }
  }

  /** No update of the pass can hit an occupied identity. */
  lemma TargetFree(before: Rows, entryId: string, plan: Plan, updates: seq<Pending>, n: nat)
    requires Unique(before) && SafePlan(before, entryId, plan) && Lists(updates, before, plan) && n < |updates|
    ensures var rows := Moved(before, plan, Attempted(updates, plan, n).Keys); var id := updates[n].previous.entityId;
      id in rows && !ClaimedByOther(rows, id, updates[n].target)
  {
    AttemptedNext(before, plan, updates, n);
    var id := updates[n].previous.entityId;
    var rows := Moved(before, plan, Attempted(updates, plan, n).Keys);
    var next := Moved(before, plan, Attempted(updates, plan, n + 1).Keys);
    MovedUnique(before, entryId, plan, Attempted(updates, plan, n + 1).Keys);
    forall other | other in rows && other != id
      ensures !HasIdentity(rows[other], rows[id].domain, rows[id].platform, updates[n].target)
    {
      assert next[other] == rows[other] && next[id].uniqueId == updates[n].target;
      assert !HasIdentity(next[other], next[id].domain, next[id].platform, next[id].uniqueId);
    }
  }

  /** The forward pass has moved the first `n` rows, without a raise. */
  ghost predicate Forward(before: Rows, plan: Plan, updates: seq<Pending>, n: nat, rows: Rows, trace: seq<Step>, start: nat)
    requires n <= |updates|
  {
    && rows == Moved(before, plan, Attempted(updates, plan, n).Keys)
    && start <= |trace|
    && NoneRaised(trace, start) && AlwaysUnique(trace, start)
  }

  lemma ForwardStep(before: Rows, entryId: string, plan: Plan, updates: seq<Pending>, n: nat,
                    rows: Rows, trace: seq<Step>, start: nat, rows': Rows, trace': seq<Step>)
    requires Keyed(before) && Unique(before) && SafePlan(before, entryId, plan) && Lists(updates, before, plan)
    requires n < |updates| && Forward(before, plan, updates, n, rows, trace, start)
    requires Extends(trace, trace') && |trace'| == |trace| + 1 && Unique(rows')
    requires var step := trace'[|trace|];
             && step.entityId == updates[n].previous.entityId && step.uniqueId == updates[n].target
             && step.rows == rows' && StepFrom(rows, step)
    ensures trace'[|trace|].outcome != Refused && AlwaysUnique(trace', start)
    ensures trace'[|trace|].outcome == Applied ==> Forward(before, plan, updates, n + 1, rows', trace', start)
    ensures trace'[|trace|].outcome != Applied ==>
              && FirstRaise(trace', start) == |trace|
              && var part := Attempted(updates, plan, n + 1);
              exists moved :: MidTransition(before, entryId, part, updates[..n + 1], moved, rows')
                              && Moved(before, part, moved) == Moved(before, plan, moved)
  {
    hide Unique, Keyed, SafePlan, AlwaysUnique, ClaimedByOther, Attempted, Moved;
    TargetFree(before, entryId, plan, updates, n);
    AttemptedNext(before, plan, updates, n);
    TraceAfter(trace, trace', start);
    var step := trace'[|trace|];
    if step.outcome != Applied {
      FirstRaiseAt(trace', start, |trace|);
      var k := if step.outcome == FailedBefore then n else n + 1;
      assert rows' == Moved(before, plan, Attempted(updates, plan, k).Keys);
      PartTransition(before, entryId, plan, updates, n + 1, k);
    }
  }

  /** Seen from the attempted part of the plan, the pass stopped mid-transition. */
  lemma PartTransition(before: Rows, entryId: string, plan: Plan, updates: seq<Pending>, n: nat, k: nat)
    requires Keyed(before) && Unique(before) && SafePlan(before, entryId, plan) && Lists(updates, before, plan)
    requires k <= n <= |updates|
    ensures var part, moved := Attempted(updates, plan, n), Attempted(updates, plan, k).Keys;
      && Moved(before, part, moved) == Moved(before, plan, moved)
      && MidTransition(before, entryId, part, updates[..n], moved, Moved(before, plan, moved))
  {
    AttemptedSafe(before, entryId, plan, updates, n);
    AttemptedLists(before, plan, updates, n);
    hide Unique, Keyed, SafePlan, Lists;
    var part, moved := Attempted(updates, plan, n), Attempted(updates, plan, k).Keys;
    forall id | id in moved ensures id in part {
      var i :| 0 <= i < k && updates[i].previous.entityId == id;
      assert ListedBefore(updates, n, id);
    }
  }

  /** Nothing attempted yet. */
  lemma ForwardStart(before: Rows, plan: Plan, updates: seq<Pending>, trace: seq<Step>)
    ensures Forward(before, plan, updates, 0, before, trace, |trace|)
    ensures NeverRefused(trace, |trace|) && AlwaysUnique(trace, |trace|) && NoneRaised(trace, |trace|)
  {
    assert Attempted(updates, plan, 0) == map[];
  }

  lemma NothingToMove(before: Rows, entryId: string)
    requires Keyed(before) && Unique(before)
    ensures var none: Plan := map[]; MidTransition(before, entryId, none, [], none.Keys, before)
  {
  }

  lemma ForwardEnd(before: Rows, entryId: string, plan: Plan, updates: seq<Pending>, rows: Rows, trace: seq<Step>, start: nat)
    requires Keyed(before) && Unique(before) && SafePlan(before, entryId, plan) && Lists(updates, before, plan)
    requires Forward(before, plan, updates, |updates|, rows, trace, start)
    ensures MidTransition(before, entryId, plan, updates, plan.Keys, rows)
    ensures NoneRaised(trace, start) && AlwaysUnique(trace, start)
  {
    hide Unique, Keyed, SafePlan;
    AttemptedLists(before, plan, updates, |updates|);
  }

  lemma NotRefused(was: seq<Step>, now: seq<Step>, start: nat)
    requires NeverRefused(was, start) && Extends(was, now) && |now| == |was| + 1 && now[|was|].outcome != Refused
    ensures NeverRefused(now, start)
  {
  }

  /** The pass failed with its last call; the rollback's calls follow. */
  lemma FailureTrace(passed: seq<Step>, done: seq<Step>, start: nat)
    requires Extends(passed, done) && start < |passed| && FirstRaise(passed, start) == |passed| - 1
    requires NeverRefused(passed, start) && NeverRefused(done, |passed|)
    requires AlwaysUnique(passed, start) && AlwaysUnique(done, |passed|)
    ensures NeverRefused(done, start) && AlwaysUnique(done, start) && FirstRaise(done, start) == |passed| - 1
  {
    hide Unique, FirstRaise;
    SamePrefix(passed, done);
    forall k | start <= k < |done| ensures done[k].outcome != Refused && Unique(done[k].rows) {
      assert k < |passed| ==> done[k] == passed[k];
    }
    FirstRaiseAt(done, start, |passed| - 1);
  }

  lemma SamePrefix(was: seq<Step>, now: seq<Step>)
    requires Extends(was, now)
    ensures forall k :: 0 <= k < |was| ==> now[k] == was[k]
  {
    assert forall k :: 0 <= k < |was| ==> now[..|was|][k] == now[k];
  }

  lemma PartMoved(before: Rows, plan: Plan, updates: seq<Pending>, n: nat, stuck: set<string>)
    requires n <= |updates| && stuck <= Attempted(updates, plan, n).Keys
    ensures Moved(before, Attempted(updates, plan, n), stuck) == Moved(before, plan, stuck)
    ensures Moved(before, plan, {}) == before
  {
  }

  // ---------- The whole operation ----------

  datatype Result = RekeyDone(updates: seq<Pending>) | Rejected(reason: Rejection) | UpdateRaised

  /** The preconditions of the change fail: nothing may be touched. */
  ghost predicate Rejects(families: Families, rows: Rows, entryId: string, decision: Decision) {
    || decision.Reject?
    || (decision.Change? && Blocked(families, rows, entryId, decision.old_, decision.new_))
  }

  /** The update pass: every planned row moves, or what moved is rolled back. */
  method UpdatePass(registry: Registry, entryId: string, updates: seq<Pending>, ghost plan: Plan) returns (raised: bool)
    requires registry.Valid() && SafePlan(registry.rows, entryId, plan) && Lists(updates, registry.rows, plan)
    modifies registry
    ensures registry.Valid() && Extends(old(registry.trace), registry.trace)
    ensures AlwaysUnique(registry.trace, |old(registry.trace)|) && NeverRefused(registry.trace, |old(registry.trace)|)
    ensures !raised ==>
              && NoneRaised(registry.trace, |old(registry.trace)|)
              && MidTransition(old(registry.rows), entryId, plan, updates, plan.Keys, registry.rows)
    ensures raised ==>
              var first := FirstRaise(registry.trace, |old(registry.trace)|);
              && first < |registry.trace|
              && registry.rows == Moved(old(registry.rows), plan, Stuck(registry.trace, first + 1))
              && (NoneRaised(registry.trace, first + 1) ==> registry.rows == old(registry.rows))
  {
    hide Unique, Keyed, SafePlan, Lists, AlwaysUnique, NeverRefused, NoneRaised, Moved, Forward, Stuck, Attempted, StepFrom, ClaimedByOther,
      FirstRaise, MidTransition;
    ghost var before, start := registry.rows, |registry.trace|;
    ForwardStart(before, plan, updates, registry.trace);
    for i := 0 to |updates|
      invariant registry.Valid() && Extends(old(registry.trace), registry.trace)
      invariant Forward(before, plan, updates, i, registry.rows, registry.trace, start)
      invariant NeverRefused(registry.trace, start)
    {
      ghost var rows, trace := registry.rows, registry.trace;
      var outcome := registry.UpdateUniqueId(updates[i].previous.entityId, updates[i].target);
      ForwardStep(before, entryId, plan, updates, i, rows, trace, start, registry.rows, registry.trace);
      NotRefused(trace, registry.trace, start);
      if outcome != Nothing {
        ghost var part := Attempted(updates, plan, i + 1);
        ghost var moved :| MidTransition(before, entryId, part, updates[..i + 1], moved, registry.rows);
        ghost var passed := registry.trace;
        var _ := RestoreIdentities(registry, entryId, updates[..i + 1], before, part, moved);
        FailureTrace(passed, registry.trace, start);
        PartMoved(before, plan, updates, i + 1, Stuck(registry.trace, |passed|));
        return true;
      }
    }
    ForwardEnd(before, entryId, plan, updates, registry.rows, registry.trace, start);
    return false;
  }

  /** Refusing by the decision, and by what blocks a change, is refusing rightly. */
  lemma RefusalIsRight(families: Families, rows: Rows, entryId: string, data: Data, newConsoleId: Value, pendingApiKey: Value,
                       refusal: Option<Rejection>)
    requires var d := Decide(data, newConsoleId, pendingApiKey);
      && (d.Noop? ==> refusal == None) && (d.Reject? ==> refusal == Some(d.reason))
      && (d.Change? ==> (refusal.Some? <==> Blocked(families, rows, entryId, d.old_, d.new_)))
      && (d.Change? && refusal.Some? ==> Obstructed(families, rows, entryId, d.old_, d.new_, refusal.value))
    ensures RefusedRightly(families, rows, entryId, data, newConsoleId, pendingApiKey, refusal)
  {
    hide Decide, Blocked, AsksUnsafe, AsksConflict, Asks, Obstructs;
    DecidedExactly(data, newConsoleId, pendingApiKey);
    var d := Decide(data, newConsoleId, pendingApiKey);
    if d.Change? {
      BlockedExactly(families, rows, entryId, d.old_, d.new_);
      if refusal.Some? {
        RowReason(families, rows, entryId, d.old_, d.new_, refusal.value);
      }
    }
  }

  lemma RowReason(families: Families, rows: Rows, entryId: string, o: string, n: string, reason: Rejection)
    requires Obstructed(families, rows, entryId, o, n, reason)
    ensures reason !in {UnsafeNamespace, PendingCredentialConflict}
  {
  }

  lemma NothingAsked(families: Families, rows: Rows, entryId: string, data: Data, newConsoleId: Value, pendingApiKey: Value)
    requires Decide(data, newConsoleId, pendingApiKey).Noop?
    ensures DoneAsAsked(families, rows, rows, entryId, data, newConsoleId, pendingApiKey)
  {
    hide Decide, StoredNamespace, AskedNamespace, SurvivesPending;
    DecidedExactly(data, newConsoleId, pendingApiKey);
    var o, n := StoredNamespace(data), AskedNamespace(data, newConsoleId, pendingApiKey);
    assert o.Some? && n.Some? ==> !Asks(data, newConsoleId, pendingApiKey, o.value, n.value);
  }

  lemma ChangeDone(families: Families, was: Rows, entryId: string, data: Data, newConsoleId: Value, pendingApiKey: Value)
    requires Decide(data, newConsoleId, pendingApiKey).Change?
    ensures var d := Decide(data, newConsoleId, pendingApiKey); var plan := RekeyPlan(families, was, entryId, d.old_, d.new_);
      DoneAsAsked(families, was, Moved(was, plan, plan.Keys), entryId, data, newConsoleId, pendingApiKey)
  {
    hide Decide, Renamespaced, RekeyPlan, Moved;
    DecidedExactly(data, newConsoleId, pendingApiKey);
    var d := Decide(data, newConsoleId, pendingApiKey);
    assert Asks(data, newConsoleId, pendingApiKey, d.old_, d.new_);
    PlanRenamespaces(families, was, entryId, d.old_, d.new_);
  }

  lemma MidIsMoved(before: Rows, entryId: string, plan: Plan, updates: seq<Pending>, rows: Rows)
    requires MidTransition(before, entryId, plan, updates, plan.Keys, rows)
    ensures rows == Moved(before, plan, plan.Keys)
  {
  }

  /**
   * `async_rekey_site_entities`. All-or-nothing: the registry ends fully re-keyed or,
   * unless a compensating update itself raises, exactly as it was.
   */
  method RekeySiteEntities(registry: Registry, entry: ConfigEntry, newConsoleId: Value, pendingApiKey: Value,
                           families: Families := SUFFIXES)
    returns (result: Result)
    requires registry.Valid()
    modifies registry
    ensures registry.Valid()
    // At every step identities stay unique, and no update meets an occupied one.
    ensures Extends(old(registry.trace), registry.trace)
    ensures AlwaysUnique(registry.trace, |old(registry.trace)|) && NeverRefused(registry.trace, |old(registry.trace)|)
    // A refused change touches nothing, and only unsafe changes are refused.
    ensures result.Rejected? <==>
              Rejects(families, old(registry.rows), entry.entryId, Decide(entry.data, newConsoleId, pendingApiKey))
    ensures result.Rejected? ==> registry.rows == old(registry.rows) && registry.trace == old(registry.trace)
    ensures RefusedRightly(families, old(registry.rows), entry.entryId, entry.data, newConsoleId, pendingApiKey,
                           if result.Rejected? then Some(result.reason) else None)
    // Success, read off the rows: every site row of the entry has its new name, and no other row changed.
    ensures result.RekeyDone? ==>
              DoneAsAsked(families, old(registry.rows), registry.rows, entry.entryId, entry.data, newConsoleId, pendingApiKey)
    // Success moves exactly the planned rows and returns what a later rollback needs.
    ensures result.RekeyDone? ==>
              var plan := PlanFor(families, old(registry.rows), entry.entryId, Decide(entry.data, newConsoleId, pendingApiKey));
              && NoneRaised(registry.trace, |old(registry.trace)|)
              && MidTransition(old(registry.rows), entry.entryId, plan, result.updates, plan.Keys, registry.rows)
    // A raise is rolled back; only rows whose own undo raised unchanged stay moved.
    ensures result.UpdateRaised? ==>
              var plan := PlanFor(families, old(registry.rows), entry.entryId, Decide(entry.data, newConsoleId, pendingApiKey));
              var first := FirstRaise(registry.trace, |old(registry.trace)|);
              && first < |registry.trace|
              && registry.rows == Moved(old(registry.rows), plan, Stuck(registry.trace, first + 1))
              && (NoneRaised(registry.trace, first + 1) ==> registry.rows == old(registry.rows))
  {
    hide Unique, Keyed, SafePlan, Lists, AlwaysUnique, NeverRefused, NoneRaised, Blocked, Moved, Forward, Stuck, Attempted, RekeyPlan,
      StepFrom, ClaimedByOther, FirstRaise, NormalizeNamespace, MidTransition, Decide, IsNamespace, Obstructed, RefusedRightly, DoneAsAsked;
    var decision := Decide(entry.data, newConsoleId, pendingApiKey);
    DecidedNamespaces(entry.data, newConsoleId, pendingApiKey);
    ghost var before, start := registry.rows, |registry.trace|;
    ghost var plan := PlanFor(families, before, entry.entryId, decision);
    ForwardStart(before, plan, [], registry.trace);
    match decision {
      case Reject(reason) =>
        RefusalIsRight(families, before, entry.entryId, entry.data, newConsoleId, pendingApiKey, Some(reason));
        return Rejected(reason);
      case Noop =>
        NothingToMove(before, entry.entryId);
        RefusalIsRight(families, before, entry.entryId, entry.data, newConsoleId, pendingApiKey, None);
        NothingAsked(families, before, entry.entryId, entry.data, newConsoleId, pendingApiKey);
        return RekeyDone([]);
      case Change(old_, new_) =>
        var preflight := CheckRows(registry, families, entry.entryId, old_, new_);
        RefusalIsRight(families, before, entry.entryId, entry.data, newConsoleId, pendingApiKey,
                       if preflight.Refuse? then Some(preflight.reason) else None);
        if preflight.Refuse? {
          return Rejected(preflight.reason);
        }
        UnblockedPlanIsSafe(families, before, entry.entryId, old_, new_);
        var raised := UpdatePass(registry, entry.entryId, preflight.updates, plan);
        if !raised {
          ChangeDone(families, before, entry.entryId, entry.data, newConsoleId, pendingApiKey);
          MidIsMoved(before, entry.entryId, plan, preflight.updates, registry.rows);
        }
        return if raised then UpdateRaised else RekeyDone(preflight.updates);
    }
  }

  // ---------- What a completed change means ----------

  /** A completed change is `Rekeyed`: a function of the rows, not of the order of updates. */
  lemma CompletedChange(families: Families, rows: Rows, entryId: string, old_: string, new_: string)
    ensures var plan := RekeyPlan(families, rows, entryId, old_, new_);
      Moved(rows, plan, plan.Keys) == Rekeyed(families, rows, entryId, old_, new_)
  {
  }

  /** Every moved row keeps its site and suffix; read back, its new identity names the same site. */
  lemma MovedRowKeepsSite(families: Families, rows: Rows, entryId: string, old_: string, new_: string, id: string)
    requires id in rows && Moves(families, rows[id], entryId, old_)
    ensures var row, row' := rows[id], Rekeyed(families, rows, entryId, old_, new_)[id];
      && row' == row.(uniqueId := row'.uniqueId)
      && Judge(families, row', new_) == Judge(families, row, old_)
      && MovedId(families, row', new_, old_) == row.uniqueId
  {
    var row := rows[id];
    JudgedRename(families, row, old_);
    var v := Judge(families, row, old_);
    NamedRowIsRenamed(families, Rekeyed(families, rows, entryId, old_, new_)[id], new_, v.site, v.key);
  }

  /** A change that is not blocked leaves every identity unique. */
  lemma RekeyedUnique(families: Families, rows: Rows, entryId: string, old_: string, new_: string)
    requires Unique(rows) && !Blocked(families, rows, entryId, old_, new_)
    ensures Unique(Rekeyed(families, rows, entryId, old_, new_))
  {
    UnblockedPlanIsSafe(families, rows, entryId, old_, new_);
    var plan := RekeyPlan(families, rows, entryId, old_, new_);
    MovedUnique(rows, entryId, plan, plan.Keys);
    CompletedChange(families, rows, entryId, old_, new_);
  }

  /** A row of the entry that already carried the new namespace. */
  predicate Preexisting(families: Families, row: Row, entryId: string, old_: string, new_: string) {
    Moves(families, row, entryId, new_) && !Moves(families, row, entryId, old_)
  }

  /**
   * Changing the namespace and changing it back restores the rows exactly when no
   * row of the entry carried the new namespace beforehand.
   */
  lemma ThereAndBack(families: Families, rows: Rows, entryId: string, old_: string, new_: string)
    requires old_ != new_
    ensures Rekeyed(families, Rekeyed(families, rows, entryId, old_, new_), entryId, new_, old_) == rows
            <==> forall id :: id in rows ==> !Preexisting(families, rows[id], entryId, old_, new_)
  {
    var there := Rekeyed(families, rows, entryId, old_, new_);
    var back := Rekeyed(families, there, entryId, new_, old_);
    forall id | id in rows
      ensures back[id] == rows[id] <==> !Preexisting(families, rows[id], entryId, old_, new_)
    {
      if Moves(families, rows[id], entryId, old_) {
        MovedRowKeepsSite(families, rows, entryId, old_, new_, id);
      } else if Moves(families, rows[id], entryId, new_) {
        JudgedRename(families, rows[id], new_);
        var v := Judge(families, rows[id], new_);
        NamespacesApart(old_, new_, LegacyUniqueId(v.site, v.key));
      }
    }
    assert back.Keys == rows.Keys;
  }

  lemma NamespacesApart(a: string, b: string, tail: string)
    requires a != b
    ensures a + "_" + tail != b + "_" + tail
  {
    var s, t := a + "_" + tail, b + "_" + tail;
    if |a| == |b| {
      assert s[..|a|] == a && t[..|b|] == b;
    } else {
      assert |s| != |t|;
    }
  }
}

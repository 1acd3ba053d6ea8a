/**
 * Re-keying the logical-site rows of a config entry when its console identity
 * changes: preflight, update pass, and the compensating rollback.
 */
module Rekey {
  import opened Text
  import opened EntityRegistry
  import opened SiteIdentity

  /** The declared suffixes of each domain; `SUFFIXES` in production. */
  type Families = map<string, set<string>>

  // ---------- Preflight of one row ----------

  datatype Verdict = Leave | MetadataMissing | Ambiguous | Rename(site: string, key: string)

  predicate Falsy(text: Option<string>) {
    text == None || text == Some("")
  }

  /** What the preflight decides about a row of the entry, before occupancy. */
  function Judge(families: Families, row: Row, old_: string): Verdict {
    var prefix := old_ + "_";
    if row.platform != DOMAIN || row.domain !in families || !StartsWith(row.uniqueId, prefix) then Leave
    else
      var suffixes := families[row.domain];
      var remainder := row.uniqueId[|prefix|..];
      if row.translationKey == None || row.translationKey.value !in suffixes then
        if Falsy(row.translationKey) && exists key :: key in suffixes && EndsWith(remainder, "_" + key)
        then MetadataMissing
        else Leave
      else
        var key := row.translationKey.value;
        var ending := "_" + key;
        var site := if EndsWith(remainder, ending) then remainder[..|remainder| - |ending|] else "";
        if site == "" || row.uniqueId != SiteUniqueId(old_, site, key) then Ambiguous
        else Rename(site, key)
  }

  lemma JudgedRename(families: Families, row: Row, old_: string)
    requires Judge(families, row, old_).Rename?
    ensures var v := Judge(families, row, old_);
      && row.uniqueId == SiteUniqueId(old_, v.site, v.key) && v.site != ""
      && row.translationKey == Some(v.key) && row.platform == DOMAIN
      && row.domain in families && v.key in families[row.domain]
  {
  }

  /** A row whose identity and metadata name a site is judged so, whatever the site's text. */
  lemma NamedRowIsRenamed(families: Families, row: Row, namespace: string, site: string, key: string)
    requires row.platform == DOMAIN && row.domain in families && key in families[row.domain]
    requires row.translationKey == Some(key) && site != ""
    requires row.uniqueId == SiteUniqueId(namespace, site, key)
    ensures Judge(families, row, namespace) == Rename(site, key)
  {
    var prefix := namespace + "_";
    assert row.uniqueId == prefix + (site + ("_" + key));
    assert row.uniqueId[|prefix|..] == site + ("_" + key);
  }

  /** The row names this site and declared suffix of its domain under the namespace, and its metadata says so too. */
  predicate Names(families: Families, row: Row, namespace: string, site: string, key: string) {
    && row.platform == DOMAIN && row.domain in families && key in families[row.domain]
    && row.translationKey == Some(key) && site != "" && row.uniqueId == namespace + "_" + site + "_" + key
  }

  /** The row's identity starts with the namespace and may be a logical site's. */
  predicate Considered(families: Families, row: Row, namespace: string) {
    row.platform == DOMAIN && row.domain in families && StartsWith(row.uniqueId, namespace + "_")
  }

  /** A logical site's identity without metadata to confirm it. */
  ghost predicate LacksMetadata(families: Families, row: Row, namespace: string) {
    && Considered(families, row, namespace) && Falsy(row.translationKey)
    && (row.translationKey.Some? ==> row.translationKey.value !in families[row.domain])
    && exists head, key :: key in families[row.domain] && row.uniqueId == namespace + "_" + (head + ("_" + key))
  }

  /** Metadata of a logical site whose identity names no site under it. */
  ghost predicate Contradicts(families: Families, row: Row, namespace: string) {
    && Considered(families, row, namespace)
    && row.translationKey.Some? && row.translationKey.value in families[row.domain]
    && forall site :: !Names(families, row, namespace, site, row.translationKey.value)
  }

  /** The preflight's verdicts, read off the row itself. */
  lemma Verdicts(families: Families, row: Row, namespace: string)
    ensures forall site, key :: Judge(families, row, namespace) == Rename(site, key) <==> Names(families, row, namespace, site, key)
    ensures Judge(families, row, namespace) == MetadataMissing <==> LacksMetadata(families, row, namespace)
    ensures Judge(families, row, namespace) == Ambiguous <==> Contradicts(families, row, namespace)
  {
    NamedExactly(families, row, namespace);
    MissingExactly(families, row, namespace);
    hide StartsWith, EndsWith;
    if Judge(families, row, namespace) == Ambiguous {
      forall site ensures !Names(families, row, namespace, site, row.translationKey.value) {
      }
    }
    var v := Judge(families, row, namespace);
    assert v.Rename? ==> Names(families, row, namespace, v.site, v.key);
  }

  lemma NamedExactly(families: Families, row: Row, namespace: string)
    ensures forall site, key :: Judge(families, row, namespace) == Rename(site, key) <==> Names(families, row, namespace, site, key)
  {
    forall site, key ensures Judge(families, row, namespace) == Rename(site, key) <==> Names(families, row, namespace, site, key) {
      assert SiteUniqueId(namespace, site, key) == namespace + "_" + site + "_" + key;
      if Names(families, row, namespace, site, key) {
        NamedRowIsRenamed(families, row, namespace, site, key);
      }
      if Judge(families, row, namespace) == Rename(site, key) {
        JudgedRename(families, row, namespace);
      }
    }
  }

  lemma MissingExactly(families: Families, row: Row, namespace: string)
    ensures Judge(families, row, namespace) == MetadataMissing <==> LacksMetadata(families, row, namespace)
  {
    if Considered(families, row, namespace) {
      var prefix := namespace + "_";
      var remainder := row.uniqueId[|prefix|..];
      assert row.uniqueId == prefix + remainder;
      if key :| key in families[row.domain] && EndsWith(remainder, "_" + key) {
        assert remainder == remainder[..|remainder| - |"_" + key|] + ("_" + key);
      }
      if head, key :| key in families[row.domain] && row.uniqueId == prefix + (head + ("_" + key)) {
        assert remainder == head + ("_" + key) && EndsWith(remainder, "_" + key);
      }
    }
  }

  // ---------- The rows after a re-key ----------

  predicate Moves(families: Families, row: Row, entryId: string, old_: string) {
    row.configEntryId == Some(entryId) && Judge(families, row, old_).Rename?
  }

  function MovedId(families: Families, row: Row, old_: string, new_: string): string
    requires Judge(families, row, old_).Rename?
  {
    var v := Judge(families, row, old_);
    SiteUniqueId(new_, v.site, v.key)
  }

  /** Exactly the entry's logical-site rows change, each only in its namespace. */
  function Rekeyed(families: Families, rows: Rows, entryId: string, old_: string, new_: string): Rows {
    map id | id in rows ::
      if Moves(families, rows[id], entryId, old_)
      then rows[id].(uniqueId := MovedId(families, rows[id], old_, new_))
      else rows[id]
  }

  // ---------- Plans ----------

  /** A captured row and the identity it should get. */
  datatype Pending = Pending(previous: Row, target: string)

  /** The same plan by entity ID. */
  type Plan = map<string, string>

  /** `updates` lists every row of the plan once, as it was in `before`. */
  ghost predicate Lists(updates: seq<Pending>, before: Rows, plan: Plan) {
    && (forall i :: 0 <= i < |updates| ==>
                      var id := updates[i].previous.entityId;
                      id in before && before[id] == updates[i].previous && id in plan && plan[id] == updates[i].target)
    && (forall id :: id in plan ==> exists i :: 0 <= i < |updates| && updates[i].previous.entityId == id)
    && DistinctRows(updates)
  }

  ghost predicate DistinctRows(updates: seq<Pending>) {
    forall i, j :: 0 <= i < j < |updates| ==> updates[i].previous.entityId != updates[j].previous.entityId
  }

  predicate SameFamily(a: Row, b: Row) {
    a.domain == b.domain && a.platform == b.platform
  }

  /** The planned rows are the entry's own, and every target is free and asked for once. */
  ghost predicate SafePlan(before: Rows, entryId: string, plan: Plan) {
    && (forall id :: id in plan ==>
                       id in before && before[id].platform == DOMAIN && before[id].configEntryId == Some(entryId))
    && (forall id, other :: id in plan && other in before ==>
                              SameFamily(before[id], before[other]) ==> before[other].uniqueId != plan[id])
    && (forall a, b :: a in plan && b in plan && a != b ==>
                         SameFamily(before[a], before[b]) ==> plan[a] != plan[b])
  }

  /** `before`, with the planned rows in `moved` at their targets. */
  ghost function Moved(before: Rows, plan: Plan, moved: set<string>): Rows {
    map id | id in before ::
      if id in moved && id in plan then before[id].(uniqueId := plan[id]) else before[id]
  }

  /** Between the pre-state and the fully moved state, no identity is ever shared. */
  lemma MovedUnique(before: Rows, entryId: string, plan: Plan, moved: set<string>)
    requires Unique(before) && SafePlan(before, entryId, plan)
    ensures Unique(Moved(before, plan, moved))
  {
    var now := Moved(before, plan, moved);
    forall a, b | a in now && b in now && a != b
      ensures !HasIdentity(now[a], now[b].domain, now[b].platform, now[b].uniqueId)
    {
      assert SameFamily(before[a], before[b]) ==> before[a].uniqueId != before[b].uniqueId by {
        assert !HasIdentity(before[a], before[b].domain, before[b].platform, before[b].uniqueId);
      }
    }
  }

  // ---------- Traces ----------

  ghost predicate Extends(was: seq<Step>, now: seq<Step>) {
    |was| <= |now| && now[..|was|] == was
  }

  /** Since `start`, identities were unique after every update call. */
  ghost predicate AlwaysUnique(trace: seq<Step>, start: nat) {
    forall k :: start <= k < |trace| ==> Unique(trace[k].rows)
  }

  /** Since `start`, no update asked for an identity another row held. */
  ghost predicate NeverRefused(trace: seq<Step>, start: nat) {
    forall k :: start <= k < |trace| ==> trace[k].outcome != Refused
  }

  ghost predicate NoneRaised(trace: seq<Step>, start: nat) {
    forall k :: start <= k < |trace| ==> trace[k].outcome == Applied
  }

  /** The rows for which an update raised before changing them. */
  ghost function Stuck(trace: seq<Step>, start: nat): set<string> {
    set k | start <= k < |trace| && trace[k].outcome == FailedBefore :: trace[k].entityId
  }

  lemma TraceAfter(was: seq<Step>, now: seq<Step>, start: nat)
    requires Extends(was, now) && |now| == |was| + 1 && start <= |was|
    ensures var step := now[|was|];
      && Stuck(now, start) == Stuck(was, start) + (if step.outcome == FailedBefore then {step.entityId} else {})
      && NoneRaised(now, start) == (NoneRaised(was, start) && step.outcome == Applied)
      && NeverRefused(now, start) == (NeverRefused(was, start) && step.outcome != Refused)
      && (AlwaysUnique(was, start) && Unique(step.rows) ==> AlwaysUnique(now, start))
  {
    assert forall k :: 0 <= k < |was| ==> now[k] == was[k];
    forall id | id in Stuck(was, start) ensures id in Stuck(now, start) {
      var k :| start <= k < |was| && was[k].outcome == FailedBefore && was[k].entityId == id;
      assert now[k] == was[k];
    }
  }

  // ---------- Rollback ----------

  /** The row is still the captured one and still belongs to the entry. */
  predicate StillOurs(current: Row, previous: Row, entryId: string) {
    && current.id == previous.id
    && current.configEntryId == Some(entryId)
    && current.domain == previous.domain
    && current.platform == previous.platform
    && current.translationKey == previous.translationKey
  }

  /** An update may be undone: the row sits at its target and its old identity is free. */
  ghost predicate Undoable(rows: Rows, entryId: string, u: Pending) {
    var id := u.previous.entityId;
    && id in rows && StillOurs(rows[id], u.previous, entryId)
    && rows[id].uniqueId == u.target != u.previous.uniqueId
    && !exists other :: other in rows && other != id
                        && HasIdentity(rows[other], u.previous.domain, DOMAIN, u.previous.uniqueId)
  }

  ghost predicate AlreadyBack(rows: Rows, entryId: string, u: Pending) {
    var id := u.previous.entityId;
    id in rows && StillOurs(rows[id], u.previous, entryId) && rows[id].uniqueId == u.previous.uniqueId
  }

  /** What undoing one update does to the rows and the trace. */
  ghost predicate UndoStep(entryId: string, u: Pending, rows: Rows, trace: seq<Step>, rows': Rows, trace': seq<Step>, ok: bool) {
    && Extends(trace, trace')
    && if Undoable(rows, entryId, u) then
         && |trace'| == |trace| + 1
         && var step := trace'[|trace|];
         && step.entityId == u.previous.entityId && step.uniqueId == u.previous.uniqueId
         && step.rows == rows' && StepFrom(rows, step)
         && ok == (step.outcome == Applied)
       else
         && rows' == rows && trace' == trace
         && ok == AlreadyBack(rows, entryId, u)
  }

  method RestoreOne(registry: Registry, entryId: string, u: Pending) returns (ok: bool)
    requires registry.Valid()
    modifies registry
    ensures registry.Valid()
    ensures UndoStep(entryId, u, old(registry.rows), old(registry.trace), registry.rows, registry.trace, ok)
  {
    var id := u.previous.entityId;
    if id !in registry.rows || !StillOurs(registry.rows[id], u.previous, entryId) {
      return false;
    }
    var current := registry.rows[id];
    if current.uniqueId == u.previous.uniqueId {
      return true;
    }
    var occupied := registry.FindEntityId(u.previous.domain, u.previous.uniqueId);
    if current.uniqueId != u.target || (occupied.Some? && occupied.value != current.entityId) {
      return false;
    }
    OccupantIsUnique(registry.rows, id, u.previous.domain, u.previous.uniqueId, occupied);
    var raised := registry.UpdateUniqueId(current.entityId, u.previous.uniqueId);
    ok := raised == Nothing;
  }

  lemma OccupantIsUnique(rows: Rows, id: string, domain: string, uniqueId: string, occupied: Option<string>)
    requires Unique(rows) && id in rows
    requires occupied.Some? ==> occupied.value == id && HasIdentity(rows[id], domain, DOMAIN, uniqueId)
    requires occupied.None? ==> !Claimed(rows, domain, DOMAIN, uniqueId)
    ensures !exists other :: other in rows && other != id && HasIdentity(rows[other], domain, DOMAIN, uniqueId)
  {
  }

  /** A row the rollback changed was at its target and is now exactly as captured. */
  ghost predicate Undone(u: Pending, entryId: string, was: Row, now: Row) {
    && StillOurs(was, u.previous, entryId) && was.entityId == u.previous.entityId
    && was.uniqueId == u.target
    && now == was.(uniqueId := u.previous.uniqueId)
  }

  ghost predicate UndoneBySome(updates: seq<Pending>, entryId: string, was: Row, now: Row) {
    exists k :: 0 <= k < |updates| && Undone(updates[k], entryId, was, now)
  }

  /** Rolling back the plan is possible: some planned rows have moved, nothing else has. */
  ghost predicate MidTransition(before: Rows, entryId: string, plan: Plan, updates: seq<Pending>, moved: set<string>, now: Rows) {
    && Keyed(before) && Unique(before) && SafePlan(before, entryId, plan)
    && Lists(updates, before, plan) && now == Moved(before, plan, moved)
  }

  lemma OldIdentityFree(before: Rows, entryId: string, plan: Plan, moved: set<string>, id: string)
    requires Unique(before) && SafePlan(before, entryId, plan) && id in plan
    ensures var rows := Moved(before, plan, moved);
      forall other :: other in rows && other != id ==>
                        !HasIdentity(rows[other], before[id].domain, before[id].platform, before[id].uniqueId)
  {
    var rows, back := Moved(before, plan, moved), Moved(before, plan, moved - {id});
    MovedUnique(before, entryId, plan, moved - {id});
    forall other | other in rows && other != id
      ensures !HasIdentity(rows[other], before[id].domain, before[id].platform, before[id].uniqueId)
    {
      assert back[other] == rows[other] && back[id] == before[id];
    }
  }

  /** Mid-transition, a moved row can be undone and an unmoved one is already back. */
  lemma PlannedRow(before: Rows, entryId: string, plan: Plan, updates: seq<Pending>, moved: set<string>, rows: Rows, i: nat)
    requires MidTransition(before, entryId, plan, updates, moved, rows) && i < |updates|
    ensures var u := updates[i]; var id := u.previous.entityId;
      && (id in moved ==> Undoable(rows, entryId, u)
                          && Renamed(rows, id, u.previous.uniqueId) == Moved(before, plan, moved - {id})
                          && !ClaimedByOther(rows, id, u.previous.uniqueId))
      && (id !in moved ==> AlreadyBack(rows, entryId, u) && !Undoable(rows, entryId, u))
  {
    var u := updates[i];
    var id := u.previous.entityId;
    assert before[id] == u.previous && plan[id] == u.target;
    assert SameFamily(before[id], before[id]) && before[id].uniqueId != plan[id];
    OldIdentityFree(before, entryId, plan, moved, id);
  }

  /** Undoing one row of the plan: it leaves the moved set unless its update is stuck. */
  lemma RollbackStep(before: Rows, entryId: string, plan: Plan, updates: seq<Pending>, moved: set<string>, i: nat,
                     rows: Rows, trace: seq<Step>, rows': Rows, trace': seq<Step>, ok: bool, start: nat)
    requires MidTransition(before, entryId, plan, updates, moved, rows) && i < |updates| && start <= |trace|
    requires UndoStep(entryId, updates[i], rows, trace, rows', trace', ok)
    ensures var id := updates[i].previous.entityId;
      && (id in Stuck(trace', start) - Stuck(trace, start) ==> id in moved)
      && Stuck(trace, start) <= Stuck(trace', start) <= Stuck(trace, start) + {id}
      && (id in Stuck(trace, start) || rows' == Moved(before, plan, if id in Stuck(trace', start) then moved else moved - {id}))
      && (NeverRefused(trace, start) ==> NeverRefused(trace', start))
      && NoneRaised(trace', start) == (NoneRaised(trace, start) && ok)
  {
    PlannedRow(before, entryId, plan, updates, moved, rows, i);
    var id := updates[i].previous.entityId;
    if id in moved {
      TraceAfter(trace, trace', start);
    } else {
      assert moved - {id} == moved;
    }
  }

  /** The registry and the verdict after some iterations of the rollback loop. */
  datatype Moment = Moment(rows: Rows, trace: seq<Step>, restored: bool)

  ghost predicate RunStep(entryId: string, u: Pending, m: Moment, m': Moment) {
    && Unique(m'.rows)
    && exists ok :: UndoStep(entryId, u, m.rows, m.trace, m'.rows, m'.trace, ok) && m'.restored == (m.restored && ok)
  }

  /** The rollback undoes the last `|run| - 1` updates, latest first. */
  ghost predicate Run(entryId: string, updates: seq<Pending>, run: seq<Moment>) {
    && 0 < |run| <= |updates| + 1
    && forall k :: 0 <= k < |run| - 1 ==> RunStep(entryId, updates[|updates| - 1 - k], run[k], run[k + 1])
  }

  lemma {:induction false} RunKeepsUnique(entryId: string, updates: seq<Pending>, run: seq<Moment>)
    requires Run(entryId, updates, run)
    ensures Extends(run[0].trace, run[|run| - 1].trace)
    ensures AlwaysUnique(run[|run| - 1].trace, |run[0].trace|)
  {
    if |run| > 1 {
      var k := |run| - 2;
      RunKeepsUnique(entryId, updates, run[..k + 1]);
      assert RunStep(entryId, updates[|updates| - 1 - k], run[k], run[k + 1]);
      if |run[k + 1].trace| > |run[k].trace| {
        TraceAfter(run[k].trace, run[k + 1].trace, |run[0].trace|);
      }
    }
  }

  /** Every row the rollback changed was undone; rows of no visited update are as found. */
  lemma {:induction false} RunOnlyUndoes(entryId: string, updates: seq<Pending>, run: seq<Moment>)
    requires Run(entryId, updates, run) && Keyed(run[0].rows)
    ensures var found, rows := run[0].rows, run[|run| - 1].rows;
      && rows.Keys == found.Keys
      && (DistinctRows(updates) ==>
            forall id :: id in found ==>
                           rows[id] == found[id]
                           || (Visited(updates, |updates| + 1 - |run|, id) && UndoneBySome(updates, entryId, found[id], rows[id])))
  {
    if |run| > 1 {
      var k := |run| - 2;
      RunOnlyUndoes(entryId, updates, run[..k + 1]);
      var u := updates[|updates| - 1 - k];
      assert RunStep(entryId, u, run[k], run[k + 1]);
      if DistinctRows(updates) && run[k + 1].rows != run[k].rows {
        var id := u.previous.entityId;
        assert !Visited(updates, |updates| - k, id);
        assert Undone(u, entryId, run[0].rows[id], run[k + 1].rows[id]);
      }
    }
  }

  /** One of the updates from index `from` on is about this row. */
  ghost predicate Visited(updates: seq<Pending>, from: int, id: string) {
    exists k :: 0 <= from <= k < |updates| && updates[k].previous.entityId == id
  }

  /** Of the rows visited from index `from` on, exactly the stuck ones are still moved. */
  ghost predicate VisitedAreStuck(updates: seq<Pending>, from: int, still: set<string>, stuck: set<string>) {
    && (forall id :: id in stuck ==> id in still && Visited(updates, from, id))
    && (forall id :: id in still && Visited(updates, from, id) ==> id in stuck)
  }

  lemma VisitOne(updates: seq<Pending>, i: nat, still: set<string>, stuck: set<string>, stuck': set<string>)
    requires i < |updates| && DistinctRows(updates)
    requires VisitedAreStuck(updates, i + 1, still, stuck)
    requires stuck <= stuck' <= stuck + {updates[i].previous.entityId}
    requires updates[i].previous.entityId in stuck' - stuck ==> updates[i].previous.entityId in still
    ensures updates[i].previous.entityId !in stuck
    ensures VisitedAreStuck(updates, i, if updates[i].previous.entityId in stuck' then still else still - {updates[i].previous.entityId}, stuck')
  {
    var id := updates[i].previous.entityId;
    assert !Visited(updates, i + 1, id);
    forall other ensures Visited(updates, i, other) <==> other == id || Visited(updates, i + 1, other) {
    }
  }

  /** Mid-transition, exactly the unvisited moved rows and the stuck ones sit at their targets. */
  lemma {:induction false} RunCompensates(before: Rows, entryId: string, plan: Plan, updates: seq<Pending>, still: set<string>,
                                          run: seq<Moment>, k: nat, start: nat)
    returns (still': set<string>)
    requires Run(entryId, updates, run) && k < |run| && start <= |run[k].trace|
    requires MidTransition(before, entryId, plan, updates, still, run[k].rows)
    requires VisitedAreStuck(updates, |updates| - k, still, Stuck(run[k].trace, start))
    requires NeverRefused(run[k].trace, start) && run[k].restored == NoneRaised(run[k].trace, start)
    ensures var now := run[|run| - 1];
      && now.rows == Moved(before, plan, still')
      && VisitedAreStuck(updates, |updates| + 1 - |run|, still', Stuck(now.trace, start))
      && NeverRefused(now.trace, start) && now.restored == NoneRaised(now.trace, start)
    decreases |run| - k
  {
    hide SafePlan, Lists, Unique, Keyed, RunStep, VisitedAreStuck, NeverRefused, NoneRaised, Stuck, Moved;
    if k == |run| - 1 {
      return still;
    }
    still' := MomentCompensates(before, entryId, plan, updates, still, |updates| - 1 - k, run[k], run[k + 1], start);
    still' := RunCompensates(before, entryId, plan, updates, still', run, k + 1, start);
  }

  lemma MomentCompensates(before: Rows, entryId: string, plan: Plan, updates: seq<Pending>, still: set<string>, i: nat,
                          m: Moment, m': Moment, start: nat)
    returns (still': set<string>)
    requires MidTransition(before, entryId, plan, updates, still, m.rows) && start <= |m.trace|
    requires i < |updates| && RunStep(entryId, updates[i], m, m')
    requires VisitedAreStuck(updates, i + 1, still, Stuck(m.trace, start))
    requires NeverRefused(m.trace, start) && m.restored == NoneRaised(m.trace, start)
    ensures m'.rows == Moved(before, plan, still') && start <= |m'.trace|
    ensures VisitedAreStuck(updates, i, still', Stuck(m'.trace, start))
    ensures NeverRefused(m'.trace, start) && m'.restored == NoneRaised(m'.trace, start)
  {
    var ok :| UndoStep(entryId, updates[i], m.rows, m.trace, m'.rows, m'.trace, ok) && m'.restored == (m.restored && ok);
    RollbackStep(before, entryId, plan, updates, still, i, m.rows, m.trace, m'.rows, m'.trace, ok, start);
    VisitOne(updates, i, still, Stuck(m.trace, start), Stuck(m'.trace, start));
    var id := updates[i].previous.entityId;
    still' := if id in Stuck(m'.trace, start) then still else still - {id};
  }

  lemma FullyVisited(before: Rows, plan: Plan, updates: seq<Pending>, still: set<string>, stuck: set<string>)
    requires Lists(updates, before, plan)
    requires forall id :: id in stuck ==> id in still
    requires forall id :: id in still && Visited(updates, 0, id) ==> id in stuck
    ensures Moved(before, plan, still) == Moved(before, plan, stuck)
    ensures Moved(before, plan, {}) == before
  {
    forall id | id in plan ensures Visited(updates, 0, id) {
      var i :| 0 <= i < |updates| && updates[i].previous.entityId == id;
    }
  }

  lemma NoneRaisedNoneStuck(trace: seq<Step>, start: nat)
    requires NoneRaised(trace, start)
    ensures Stuck(trace, start) == {}
  {
  }

  lemma FullRunCompensates(before: Rows, entryId: string, plan: Plan, updates: seq<Pending>, moved: set<string>, run: seq<Moment>)
    requires Run(entryId, updates, run) && |run| == |updates| + 1 && run[0].restored
    requires MidTransition(before, entryId, plan, updates, moved, run[0].rows)
    ensures var now, start := run[|run| - 1], |run[0].trace|;
      && now.rows == Moved(before, plan, Stuck(now.trace, start))
      && Stuck(now.trace, start) <= plan.Keys
      && NeverRefused(now.trace, start)
      && now.restored == NoneRaised(now.trace, start)
      && (now.restored ==> now.rows == before)
  {
    hide SafePlan, Unique, RunStep;
    var now, start := run[|run| - 1], |run[0].trace|;
    var still := RunCompensates(before, entryId, plan, updates, moved, run, 0, start);
    FullyVisited(before, plan, updates, still, Stuck(now.trace, start));
    if now.restored {
      NoneRaisedNoneStuck(now.trace, start);
    }
  }

  /**
   * `async_restore_site_entity_identities`. The ghost parameters are for the
   * specification: the rows as captured, the plan, and the rows that have moved since.
   */
  method RestoreIdentities(registry: Registry, entryId: string, updates: seq<Pending>,
                           ghost before: Rows, ghost plan: Plan, ghost moved: set<string>)
    returns (restored: bool)
    requires registry.Valid()
    modifies registry
    ensures registry.Valid()
    ensures Extends(old(registry.trace), registry.trace) && AlwaysUnique(registry.trace, |old(registry.trace)|)
    // Interference: a row is left alone unless it is ours and still at its target.
    ensures registry.rows.Keys == old(registry.rows.Keys)
    ensures DistinctRows(updates) ==>
              forall id :: id in registry.rows ==>
                             registry.rows[id] == old(registry.rows)[id]
                             || UndoneBySome(updates, entryId, old(registry.rows)[id], registry.rows[id])
    // Compensation: only a row whose own update raised unchanged stays moved.
    ensures MidTransition(before, entryId, plan, updates, moved, old(registry.rows)) ==>
              && registry.rows == Moved(before, plan, Stuck(registry.trace, |old(registry.trace)|))
              && Stuck(registry.trace, |old(registry.trace)|) <= plan.Keys
              && NeverRefused(registry.trace, |old(registry.trace)|)
              && restored == NoneRaised(registry.trace, |old(registry.trace)|)
              && (restored ==> registry.rows == before)
  {
    hide Undoable, AlreadyBack, SafePlan, Lists, Unique, Stuck, NeverRefused, NoneRaised, AlwaysUnique, UndoneBySome;
    restored := true;
    ghost var run := [Moment(registry.rows, registry.trace, true)];
    var i := |updates|;
    while i > 0
      invariant 0 <= i <= |updates| && |run| == |updates| + 1 - i
      invariant registry.Valid() && Run(entryId, updates, run)
      invariant run[0] == old(Moment(registry.rows, registry.trace, true))
      invariant run[|run| - 1] == Moment(registry.rows, registry.trace, restored)
    {
      i := i - 1;
      var ok := RestoreOne(registry, entryId, updates[i]);
      restored := restored && ok;
      run := run + [Moment(registry.rows, registry.trace, restored)];
    }
    RunKeepsUnique(entryId, updates, run);
    RunOnlyUndoes(entryId, updates, run);
    if MidTransition(before, entryId, plan, updates, moved, old(registry.rows)) {
      FullRunCompensates(before, entryId, plan, updates, moved, run);
    }
  }
}

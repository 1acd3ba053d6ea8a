/** Numbering and buffering rule changes, and what that means for the entity that reports them. */
module RuleAudit {
  import opened Text
  import opened RuleChanges

  const RULE_CHANGE_BUFFER_SIZE := 100

  /** What one refresh finds: its sites in sorted order, each with the changes to report, in order. */
  type Findings = seq<(string, seq<ChangeType>)>

  predicate DistinctSites(findings: Findings) {
    forall i, j :: 0 <= i < j < |findings| ==> findings[i].0 != findings[j].0
  }

  /** The tracker's counter and its buffered changes by site. */
  datatype Log = Log(sequence: nat, changes: map<string, Snapshot>)

  const EMPTY_LOG := Log(0, map[])

  function Listed(log: Log, site: string): Snapshot {
    if site in log.changes then log.changes[site] else []
  }

  /** `buffered[-RULE_CHANGE_BUFFER_SIZE:]` */
  function Newest(records: Snapshot): Snapshot {
    if |records| > RULE_CHANGE_BUFFER_SIZE then records[|records| - RULE_CHANGE_BUFFER_SIZE..] else records
  }

  /** The changes with the numbers after `last`. */
  function Stamped(last: nat, kinds: seq<ChangeType>): (records: Snapshot)
    ensures |records| == |kinds|
    ensures forall i :: 0 <= i < |kinds| ==> records[i] == Record(Some(last + 1 + i), Some(kinds[i]))
  {
    seq(|kinds|, i requires 0 <= i < |kinds| => Record(Some(last + 1 + i), Some(kinds[i])))
  }

  function Recorded(log: Log, site: string, kinds: seq<ChangeType>): Log {
    if kinds == [] then log
    else Log(log.sequence + |kinds|, log.changes[site := Newest(Listed(log, site) + Stamped(log.sequence, kinds))])
  }

  function Present(findings: Findings): set<string> {
    set i | 0 <= i < |findings| :: findings[i].0
  }

  /** The log once the first `n` sites of a refresh have been compared. */
  function Audited(log: Log, findings: Findings, n: nat): Log
    requires n <= |findings|
  {
    if n == 0 then log.(changes := map site | site in log.changes && site in Present(findings) :: log.changes[site])
    else Recorded(Audited(log, findings, n - 1), findings[n - 1].0, findings[n - 1].1)
  }

  class RuleAuditTracker {
    var sequence: nat
    var changes: map<string, Snapshot>

    constructor ()
      ensures Log(sequence, changes) == EMPTY_LOG
    {
      sequence, changes := 0, map[];
    }

    /** Sites that are gone lose their buffers. */
    method DropAbsent(present: set<string>)
      modifies this`changes
      ensures changes == map site | site in old(changes) && site in present :: old(changes)[site]
    {
      var known := changes.Keys;
      while known != {}
        invariant known <= changes.Keys <= old(changes).Keys
        invariant forall site :: site in old(changes) && (site in present || site in known) ==> site in changes
        invariant forall site :: site in changes ==> changes[site] == old(changes)[site] && (site in present || site in known)
        decreases known
      {
        var site :| site in known;
        known := known - {site};
        if site !in present {
          changes := changes - {site};
        }
      }
    }

    /** Every change takes the next number. */
    method Number(kinds: seq<ChangeType>) returns (added: Snapshot)
      modifies this`sequence
      ensures sequence == old(sequence) + |kinds| && added == Stamped(old(sequence), kinds)
    {
      added := [];
      for i := 0 to |kinds|
        invariant added == Stamped(old(sequence), kinds[..i]) && sequence == old(sequence) + i
      {
        sequence := sequence + 1;
        added := added + [Record(Some(sequence), Some(kinds[i]))];
        assert added == Stamped(old(sequence), kinds[..i + 1]);
      }
      assert kinds[..|kinds|] == kinds;
    }

    /** `process`; what comparing each site found is a parameter, nothing if it failed. */
    method Process(findings: Findings) returns (published: map<string, Snapshot>)
      modifies this
      ensures Log(sequence, changes) == Audited(old(Log(sequence, changes)), findings, |findings|)
      ensures published == changes
    {
      hide Newest, Stamped;
      DropAbsent(Present(findings));
      for n := 0 to |findings|
        invariant Log(sequence, changes) == Audited(old(Log(sequence, changes)), findings, n)
      {
        var (site, kinds) := findings[n];
        var added := Number(kinds);
        if added != [] {
          var buffered := (if site in changes then changes[site] else []) + added;
          changes := changes[site := Newest(buffered)];
        }
      }
      return changes;
    }
  }

  // ---------- What one refresh does to one site ----------

  /** Buffers hold at most a hundred well-formed records, with ascending numbers up to the counter. */
  ghost predicate WellKept(log: Log) {
    forall site :: Kept(Listed(log, site), log.sequence)
  }

  ghost predicate Kept(records: Snapshot, sequence: nat) {
    && |records| <= RULE_CHANGE_BUFFER_SIZE
    && (forall i :: 0 <= i < |records| ==> WellFormed(records[i]) && 0 < records[i].sequence.value <= sequence)
    && (forall i, j :: 0 <= i < j < |records| ==> records[i].sequence.value < records[j].sequence.value)
  }

  lemma NewestKept(records: Snapshot, last: nat, kinds: seq<ChangeType>)
    requires Kept(records, last)
    ensures Kept(Newest(records + Stamped(last, kinds)), last + |kinds|)
  {
    var all := records + Stamped(last, kinds);
    forall i, j | 0 <= i < j < |all| ensures all[i].sequence.value < all[j].sequence.value {
      if j >= |records| {
        assert all[j] == Stamped(last, kinds)[j - |records|];
      }
    }
  }

  lemma KeptLonger(records: Snapshot, sequence: nat, sequence': nat)
    requires Kept(records, sequence) && sequence <= sequence'
    ensures Kept(records, sequence')
  {
  }

  /** A refresh drops an absent site's buffer and adds a present site's changes to it, as far as they fit. */
  lemma {:induction false} SiteAudited(log: Log, findings: Findings, n: nat, site: string)
    requires WellKept(log) && DistinctSites(findings) && n <= |findings|
    ensures var now := Audited(log, findings, n);
      && log.sequence <= now.sequence && Kept(Listed(now, site), now.sequence)
      && (site !in Present(findings) ==> Listed(now, site) == [])
      && (forall k :: 0 <= k < |findings| && findings[k].0 == site ==>
                        Listed(now, site) == if k < n then SiteBuffer(log, findings, k) else Listed(log, site))
  {
    hide Kept, Newest, Stamped;
    assert Kept(Listed(log, site), log.sequence);
    if n == 0 {
      EmptyKept(log.sequence);
      assert forall k :: 0 <= k < |findings| ==> findings[k].0 in Present(findings);
    } else {
      SiteAudited(log, findings, n - 1, site);
      var was := Audited(log, findings, n - 1);
      var (other, kinds) := findings[n - 1];
      NewestKept(Listed(was, site), was.sequence, kinds);
      KeptLonger(Listed(was, site), was.sequence, was.sequence + |kinds|);
      NewestOfKept(Listed(was, site), was.sequence);
      assert other in Present(findings);
    }
  }

  lemma EmptyKept(sequence: nat)
    ensures Kept([], sequence)
  {
  }

  lemma NewestOfKept(records: Snapshot, last: nat)
    requires Kept(records, last)
    ensures Newest(records + Stamped(last, [])) == records
  {
    assert records + Stamped(last, []) == records;
  }

  /** The number before those of the `k`-th site. */
  function LastBefore(log: Log, findings: Findings, k: nat): nat
    requires k < |findings|
  {
    Audited(log, findings, k).sequence
  }

  function SiteBuffer(log: Log, findings: Findings, k: nat): Snapshot
    requires k < |findings|
  {
    Newest(Listed(log, findings[k].0) + Stamped(LastBefore(log, findings, k), findings[k].1))
  }

  // ---------- Runs ----------

  // A run is every refresh of one tracker. An entity of a site is built after `m` of them
  // and updated after `times[0]`, `times[1]`, ... of them; it need not see every refresh.

  ghost predicate AllDistinct(refreshes: seq<Findings>) {
    forall p :: 0 <= p < |refreshes| ==> DistinctSites(refreshes[p])
  }

  function LogAfter(refreshes: seq<Findings>, n: nat): Log
    requires n <= |refreshes|
  {
    if n == 0 then EMPTY_LOG else Audited(LogAfter(refreshes, n - 1), refreshes[n - 1], |refreshes[n - 1]|)
  }

  /** The site's changes as published after `n` refreshes. */
  function Published(refreshes: seq<Findings>, site: string, n: nat): Snapshot
    requires n <= |refreshes|
  {
    Listed(LogAfter(refreshes, n), site)
  }

  lemma {:induction false} LogKept(refreshes: seq<Findings>, n: nat)
    requires AllDistinct(refreshes) && n <= |refreshes|
    ensures WellKept(LogAfter(refreshes, n))
  {
    hide Kept, Audited, Listed;
    if n == 0 {
      forall site ensures Kept(Listed(EMPTY_LOG, site), 0) {
        NothingListed(site);
      }
    } else {
      LogKept(refreshes, n - 1);
      forall site ensures Kept(Listed(LogAfter(refreshes, n), site), LogAfter(refreshes, n).sequence) {
        SiteAudited(LogAfter(refreshes, n - 1), refreshes[n - 1], |refreshes[n - 1]|, site);
      }
    }
  }

  lemma NothingListed(site: string)
    ensures Listed(EMPTY_LOG, site) == [] && Kept(Listed(EMPTY_LOG, site), 0)
  {
  }

  /** How many changes the first `n` sites of a refresh have. */
  function ChangesOf(findings: Findings, n: nat): nat
    requires n <= |findings|
  {
    if n == 0 then 0 else ChangesOf(findings, n - 1) + |findings[n - 1].1|
  }

  function ChangesAfter(refreshes: seq<Findings>, n: nat): nat
    requires n <= |refreshes|
  {
    if n == 0 then 0 else ChangesAfter(refreshes, n - 1) + ChangesOf(refreshes[n - 1], |refreshes[n - 1]|)
  }

  lemma {:induction false} AuditCounts(log: Log, findings: Findings, n: nat)
    requires n <= |findings|
    ensures Audited(log, findings, n).sequence == log.sequence + ChangesOf(findings, n)
  {
    hide Newest, Stamped, Listed;
    if n > 0 {
      AuditCounts(log, findings, n - 1);
    }
  }

  lemma {:induction false} RunCounts(refreshes: seq<Findings>, n: nat)
    requires n <= |refreshes|
    ensures LogAfter(refreshes, n).sequence == ChangesAfter(refreshes, n)
  {
    hide Audited;
    if n > 0 {
      RunCounts(refreshes, n - 1);
      AuditCounts(LogAfter(refreshes, n - 1), refreshes[n - 1], |refreshes[n - 1]|);
    }
  }

  /** The `n`-th refresh has the site in its `k`-th place. */
  predicate FoundIn(refreshes: seq<Findings>, n: nat, site: string, k: nat) {
    0 < n <= |refreshes| && k < |refreshes[n - 1]| && refreshes[n - 1][k].0 == site
  }

  /** All changes of the site since it was last absent; a change is numbered by how many were found before it, plus one. */
  ghost function History(refreshes: seq<Findings>, site: string, n: nat): Snapshot
    requires n <= |refreshes|
  {
    if n == 0 then []
    else if k: nat :| FoundIn(refreshes, n, site, k)
    then History(refreshes, site, n - 1) + Stamped(ChangesAfter(refreshes, n - 1) + ChangesOf(refreshes[n - 1], k), refreshes[n - 1][k].1)
    else []
  }

  /** After any run a site lists the last hundred of its changes, all of them if they are fewer. */
  lemma {:induction false} ListsNewest(refreshes: seq<Findings>, site: string, n: nat)
    requires AllDistinct(refreshes) && n <= |refreshes|
    ensures var all := History(refreshes, site, n);
      Published(refreshes, site, n) == all[if |all| > 100 then |all| - 100 else 0..]
  {
    if n == 0 {
      NothingListed(site);
    } else {
      hide *;
      ListsNewest(refreshes, site, n - 1);
      if k: nat :| FoundIn(refreshes, n, site, k) {
        HistoryNext(refreshes, site, n, k);
        PublishedNext(refreshes, site, n, k);
        var added := Stamped(ChangesAfter(refreshes, n - 1) + ChangesOf(refreshes[n - 1], k), refreshes[n - 1][k].1);
        NewestOfNewest(History(refreshes, site, n - 1), added);
      } else {
        AbsentNext(refreshes, site, n);
      }
    }
  }

  lemma PublishedNext(refreshes: seq<Findings>, site: string, n: nat, k: nat)
    requires AllDistinct(refreshes) && 0 < n <= |refreshes| && FoundIn(refreshes, n, site, k)
    ensures k < |refreshes[n - 1]|
    ensures Published(refreshes, site, n)
            == Newest(Published(refreshes, site, n - 1)
                      + Stamped(ChangesAfter(refreshes, n - 1) + ChangesOf(refreshes[n - 1], k), refreshes[n - 1][k].1))
  {
    hide Audited, Listed, Newest, Stamped, Kept;
    LogKept(refreshes, n - 1);
    var log, findings := LogAfter(refreshes, n - 1), refreshes[n - 1];
    SiteAudited(log, findings, |findings|, site);
    RunCounts(refreshes, n - 1);
    AuditCounts(log, findings, k);
  }

  lemma AbsentNext(refreshes: seq<Findings>, site: string, n: nat)
    requires AllDistinct(refreshes) && 0 < n <= |refreshes| && forall k: nat :: !FoundIn(refreshes, n, site, k)
    ensures Published(refreshes, site, n) == [] && History(refreshes, site, n) == []
  {
    hide Audited, Listed, Newest, Stamped, Kept;
    LogKept(refreshes, n - 1);
    var log, findings := LogAfter(refreshes, n - 1), refreshes[n - 1];
    SiteAudited(log, findings, |findings|, site);
    forall k: nat ensures k < |findings| ==> findings[k].0 != site {
      assert !FoundIn(refreshes, n, site, k);
    }
  }

  lemma HistoryNext(refreshes: seq<Findings>, site: string, n: nat, k: nat)
    requires AllDistinct(refreshes) && 0 < n <= |refreshes| && FoundIn(refreshes, n, site, k)
    ensures k < |refreshes[n - 1]|
    ensures History(refreshes, site, n)
            == History(refreshes, site, n - 1)
               + Stamped(ChangesAfter(refreshes, n - 1) + ChangesOf(refreshes[n - 1], k), refreshes[n - 1][k].1)
  {
    hide Stamped, ChangesAfter, ChangesOf;
    assert DistinctSites(refreshes[n - 1]);
  }

  lemma NewestOfNewest(all: Snapshot, added: Snapshot)
    ensures var old_ := all[if |all| > 100 then |all| - 100 else 0..];
      Newest(old_ + added) == (all + added)[if |all + added| > 100 then |all + added| - 100 else 0..]
  {
    var from := if |all| > 100 then |all| - 100 else 0;
    assert all[from..] + added == (all + added)[from..];
  }

  /** Nothing old comes back: what a refresh adds has a number above the counter before it. */
  lemma RefreshAdds(refreshes: seq<Findings>, n: nat, site: string, c: Change)
    requires AllDistinct(refreshes) && n < |refreshes| && Shows(Published(refreshes, site, n + 1), c)
    ensures Shows(Published(refreshes, site, n), c) || c.sequence > LogAfter(refreshes, n).sequence
    ensures LogAfter(refreshes, n).sequence <= LogAfter(refreshes, n + 1).sequence
  {
    hide Kept, Audited, Listed, Newest;
    LogKept(refreshes, n);
    var log, findings := LogAfter(refreshes, n), refreshes[n];
    SiteAudited(log, findings, |findings|, site);
    if site in Present(findings) {
      var k :| 0 <= k < |findings| && findings[k].0 == site;
      SiteAudited(log, findings, k, site);
      NewestIsPart(Listed(log, site) + Stamped(LastBefore(log, findings, k), findings[k].1));
    }
  }

  lemma NewestIsPart(records: Snapshot)
    ensures forall r :: r in Newest(records) ==> r in records
  {
  }

  /** A change that is numbered by now and not listed any more is never listed again. */
  lemma {:induction false} OnlyDrops(refreshes: seq<Findings>, p: nat, q: nat, site: string, c: Change)
    requires AllDistinct(refreshes) && p <= q <= |refreshes|
    ensures LogAfter(refreshes, p).sequence <= LogAfter(refreshes, q).sequence
    ensures Shows(Published(refreshes, site, q), c) && c.sequence <= LogAfter(refreshes, p).sequence ==>
              Shows(Published(refreshes, site, p), c)
    decreases q
  {
    hide Audited, Listed;
    if p < q {
      OnlyDrops(refreshes, p, q - 1, site, c);
      CounterGrows(refreshes, q - 1, site);
      if Shows(Published(refreshes, site, q), c) {
        RefreshAdds(refreshes, q - 1, site, c);
      }
    }
  }

  lemma CounterGrows(refreshes: seq<Findings>, n: nat, site: string)
    requires AllDistinct(refreshes) && n < |refreshes|
    ensures LogAfter(refreshes, n).sequence <= LogAfter(refreshes, n + 1).sequence
  {
    hide Audited;
    LogKept(refreshes, n);
    SiteAudited(LogAfter(refreshes, n), refreshes[n], |refreshes[n]|, site);
  }

  lemma ListedIsNumbered(refreshes: seq<Findings>, n: nat, site: string, c: Change)
    requires AllDistinct(refreshes) && n <= |refreshes| && Shows(Published(refreshes, site, n), c)
    ensures 0 < c.sequence <= LogAfter(refreshes, n).sequence
    ensures forall d :: Shows(Published(refreshes, site, n), d) && d.sequence == c.sequence ==> d == c
  {
    hide LogAfter;
    LogKept(refreshes, n);
    assert Kept(Published(refreshes, site, n), LogAfter(refreshes, n).sequence);
  }

  /** The entity's updates follow its construction, in order. */
  ghost predicate InOrder(m: nat, times: seq<nat>, end: nat) {
    && m <= end && (forall j :: 0 <= j < |times| ==> m <= times[j] <= end)
    && (forall i, j :: 0 <= i < j < |times| ==> times[i] <= times[j])
  }

  function Seen(refreshes: seq<Findings>, site: string, times: seq<nat>): (seen: seq<Snapshot>)
    requires forall j :: 0 <= j < |times| ==> times[j] <= |refreshes|
    ensures |seen| == |times|
  {
    seq(|times|, j requires 0 <= j < |times| => Published(refreshes, site, times[j]))
  }

  /** The numbering makes every change an entity has not seen larger than all it has. */
  lemma AuditNumbersGrow(refreshes: seq<Findings>, site: string, m: nat, times: seq<nat>)
    requires AllDistinct(refreshes) && InOrder(m, times, |refreshes|)
    ensures NumbersGrow(Published(refreshes, site, m), Seen(refreshes, site, times))
  {
    hide Published, LogAfter, Shows;
    var first, updates := Published(refreshes, site, m), Seen(refreshes, site, times);
    forall j, c | 0 <= j < |updates| && Shows(updates[j], c) && !ShownBefore(first, updates, j, c)
      ensures c.sequence > 0
      ensures forall e :: ShownBefore(first, updates, j, e) ==> e.sequence < c.sequence
      ensures forall d :: Shows(updates[j], d) && d.sequence == c.sequence ==> d == c
    {
      ListedIsNumbered(refreshes, times[j], site, c);
      forall e | ShownBefore(first, updates, j, e) ensures e.sequence < c.sequence {
        var t := if Shows(first, e) then m else var i :| 0 <= i < j && Shows(updates[i], e); times[i];
        ListedIsNumbered(refreshes, t, site, e);
        OnlyDrops(refreshes, t, times[j], site, c);
      }
    }
  }

  /** For the audit's numbers, a change fires exactly if the entity first sees it in an update. */
  lemma FiresWhatItSees(refreshes: seq<Findings>, site: string, m: nat, times: seq<nat>, n: nat, c: Change)
    requires AllDistinct(refreshes) && InOrder(m, times, |refreshes|) && n <= |times|
    ensures var first, updates := Published(refreshes, site, m), Seen(refreshes, site, times);
      c in FiredAfter(first, updates, n) <==> !Shows(first, c) && exists j :: 0 <= j < n && Shows(updates[j], c)
  {
    AuditNumbersGrow(refreshes, site, m, times);
    FiresEveryNewChange(Published(refreshes, site, m), Seen(refreshes, site, times), n, c);
  }

  /** The `i`-th change that refresh `p` finds on its `k`-th site, with its number. */
  function Found(refreshes: seq<Findings>, p: nat, k: nat, i: nat): Change
    requires p < |refreshes| && k < |refreshes[p]| && i < |refreshes[p][k].1|
  {
    Change(LastBefore(LogAfter(refreshes, p), refreshes[p], k) + 1 + i, refreshes[p][k].1[i])
  }

  /** A change found after construction fires exactly if the next update still lists it. */
  lemma FiresIfStillListed(refreshes: seq<Findings>, m: nat, times: seq<nat>, p: nat, k: nat, i: nat, j: nat, n: nat)
    requires AllDistinct(refreshes) && InOrder(m, times, |refreshes|)
    requires m <= p < |refreshes| && k < |refreshes[p]| && i < |refreshes[p][k].1|
    requires j < n <= |times| && times[j] > p && (j > 0 ==> times[j - 1] <= p)
    ensures var site, c := refreshes[p][k].0, Found(refreshes, p, k, i);
      c in FiredAfter(Published(refreshes, site, m), Seen(refreshes, site, times), n)
      <==> Shows(Published(refreshes, site, times[j]), c)
  {
    hide Published, LogAfter, Shows, FiredAfter, Audited;
    var site, c := refreshes[p][k].0, Found(refreshes, p, k, i);
    FiresWhatItSees(refreshes, site, m, times, n, c);
    FoundIsNew(refreshes, p, k, i);
    forall t: nat | t <= p ensures !Shows(Published(refreshes, site, t), c) {
      if Shows(Published(refreshes, site, t), c) {
        ListedIsNumbered(refreshes, t, site, c);
        OnlyDrops(refreshes, t, p, site, c);
      }
    }
    OnlyDrops(refreshes, p + 1, times[j], site, c);
    forall l | j <= l < n && Shows(Published(refreshes, site, times[l]), c) ensures Shows(Published(refreshes, site, times[j]), c) {
      OnlyDrops(refreshes, times[j], times[l], site, c);
    }
    assert Seen(refreshes, site, times)[j] == Published(refreshes, site, times[j]);
  }

  lemma FoundIsNew(refreshes: seq<Findings>, p: nat, k: nat, i: nat)
    requires AllDistinct(refreshes) && p < |refreshes| && k < |refreshes[p]| && i < |refreshes[p][k].1|
    ensures LogAfter(refreshes, p).sequence < Found(refreshes, p, k, i).sequence <= LogAfter(refreshes, p + 1).sequence
  {
    hide Listed, Kept;
    LogKept(refreshes, p);
    var log, findings := LogAfter(refreshes, p), refreshes[p];
    SiteAudited(log, findings, k, findings[k].0);
    AuditedGrows(log, findings, k + 1, |findings|);
  }

  lemma {:induction false} AuditedGrows(log: Log, findings: Findings, a: nat, b: nat)
    requires a <= b <= |findings|
    ensures Audited(log, findings, a).sequence <= Audited(log, findings, b).sequence
  {
    if a < b {
      AuditedGrows(log, findings, a, b - 1);
    }
  }

  /**
   * An entity that sees every refresh fires a change found after its construction exactly
   * unless a hundred or more later changes of its site came in the same refresh.
   */
  lemma FiresUnlessBurst(refreshes: seq<Findings>, m: nat, times: seq<nat>, p: nat, k: nat, i: nat, j: nat, n: nat)
    requires AllDistinct(refreshes) && InOrder(m, times, |refreshes|)
    requires m <= p < |refreshes| && k < |refreshes[p]| && i < |refreshes[p][k].1|
    requires j < n <= |times| && times[j] == p + 1 && (j > 0 ==> times[j - 1] <= p)
    ensures var site, kinds := refreshes[p][k].0, refreshes[p][k].1;
      Found(refreshes, p, k, i) in FiredAfter(Published(refreshes, site, m), Seen(refreshes, site, times), n)
      <==> |kinds| - i <= RULE_CHANGE_BUFFER_SIZE
  {
    hide Published, LogAfter, Shows, FiredAfter, Audited;
    FiresIfStillListed(refreshes, m, times, p, k, i, j, n);
    ListedAtOnce(refreshes, p, k, i);
  }

  lemma ListedAtOnce(refreshes: seq<Findings>, p: nat, k: nat, i: nat)
    requires AllDistinct(refreshes) && p < |refreshes| && k < |refreshes[p]| && i < |refreshes[p][k].1|
    ensures Shows(Published(refreshes, refreshes[p][k].0, p + 1), Found(refreshes, p, k, i))
            <==> |refreshes[p][k].1| - i <= RULE_CHANGE_BUFFER_SIZE
  {
    hide Audited, Kept, Newest, Stamped, Listed;
    LogKept(refreshes, p);
    var log, findings := LogAfter(refreshes, p), refreshes[p];
    var (site, kinds) := findings[k];
    SiteAudited(log, findings, |findings|, site);
    SiteAudited(log, findings, k, site);
    KeptNow(log, site);
    InNewest(Listed(log, site), log.sequence, LastBefore(log, findings, k), kinds, i);
  }

  lemma KeptNow(log: Log, site: string)
    requires WellKept(log)
    ensures Kept(Listed(log, site), log.sequence)
  {
  }

  lemma InNewest(records: Snapshot, sequence: nat, last: nat, kinds: seq<ChangeType>, i: nat)
    requires Kept(records, sequence) && sequence <= last && i < |kinds|
    ensures Record(Some(last + 1 + i), Some(kinds[i])) in Newest(records + Stamped(last, kinds))
            <==> |kinds| - i <= RULE_CHANGE_BUFFER_SIZE
  {
    var all, r := records + Stamped(last, kinds), Record(Some(last + 1 + i), Some(kinds[i]));
    assert all[|records| + i] == r;
    forall x | 0 <= x < |all| && all[x] == r ensures x == |records| + i {
      if x >= |records| {
        assert all[x] == Stamped(last, kinds)[x - |records|];
      }
    }
    if |all| > RULE_CHANGE_BUFFER_SIZE {
      var from := |all| - RULE_CHANGE_BUFFER_SIZE;
      assert forall x :: from <= x < |all| ==> Newest(all)[x - from] == all[x];
    }
  }
}

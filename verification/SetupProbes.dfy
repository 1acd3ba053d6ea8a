/** Setup retries decided from the application probes, with two budgets per entry. */
module SetupProbes {
  import opened Text

  const SETUP_PROBE_RETRIES := 3

  datatype Status = Available | Empty | Unsupported | AuthFailed | Unreachable | Errored

  /** The probes of one attempt: Network, Protect and, if probed, InnerSpace. */
  datatype Probes = Probes(network: Status, protect: Status, innerspace: Option<Status>)

  predicate AnyIs(p: Probes, status: Status) {
    p.network == status || p.protect == status || p.innerspace == Some(status)
  }

  datatype Budget = Budget(partial: nat, inconclusive: nat)

  const UNSPENT := Budget(0, 0)

  /** What an attempt comes to: load, start reauth, or be retried. */
  datatype Outcome = Load | Reauth | Retry

  predicate Terminal(o: Outcome) {
    !o.Retry?
  }

  /** Nothing usable and something unreachable: retried for as long as it lasts. */
  predicate Outage(p: Probes) {
    AnyIs(p, Unreachable) && !AnyIs(p, Available)
  }

  /** The outcome and, for a retry, the budget spent so far. */
  function Decide(p: Probes, b: Budget): (Outcome, Budget) {
    if Outage(p) then (Retry, b)
    else if AnyIs(p, Unreachable) && b.partial < SETUP_PROBE_RETRIES then (Retry, b.(partial := b.partial + 1))
    else if AnyIs(p, Available) then (Load, UNSPENT)
    else if AnyIs(p, AuthFailed) then (Reauth, UNSPENT)
    else if b.inconclusive < SETUP_PROBE_RETRIES then (Retry, b.(inconclusive := b.inconclusive + 1))
    else (Reauth, UNSPENT)
  }

  function Statuses(p: Probes): set<Status> {
    {p.network, p.protect} + (if p.innerspace.Some? then {p.innerspace.value} else {})
  }

  /** The documented verdicts, for every combination of probes and budgets, and what each leaves of the budgets. */
  lemma DecidesAsDocumented(p: Probes, b: Budget)
    ensures var (outcome, after) := Decide(p, b);
      var missing, usable, denied := Unreachable in Statuses(p), Available in Statuses(p), AuthFailed in Statuses(p);
      && (outcome == Load <==> usable && !(missing && b.partial < 3))
      && (outcome == Reauth <==> !usable && !missing && (denied || b.inconclusive >= 3))
      && (Outage(p) <==> missing && !usable)
      && (outcome != Retry ==> after == Budget(0, 0))
      && (outcome == Retry && missing && !usable ==> after == b)
      && (outcome == Retry && missing && usable ==> after == Budget(b.partial + 1, b.inconclusive))
      && (outcome == Retry && !missing ==> after == Budget(b.partial, b.inconclusive + 1))
  {
  }

  // ---------- The counters of all entries ----------

  type Attempts = map<string, Budget>

  function BudgetOf(attempts: Attempts, entryId: string): Budget {
    if entryId in attempts then attempts[entryId] else UNSPENT
  }

  function Cleared(attempts: Attempts, entryId: string): Attempts {
    attempts - {entryId}
  }

  function Attempted(attempts: Attempts, entryId: string, p: Probes): Attempts {
    var (outcome, after) := Decide(p, BudgetOf(attempts, entryId));
    if Terminal(outcome) then Cleared(attempts, entryId) else attempts[entryId := after]
  }

  class Setup {
    // Retry counters per entry; unloading or removing an entry forgets its own.
    var attempts: Attempts

    constructor ()
      ensures attempts == map[]
    {
      attempts := map[];
    }

    /** `_clear_setup_probe_attempts` */
    method Clear(entryId: string)
      modifies this
      ensures attempts == Cleared(old(attempts), entryId)
    {
      attempts := attempts - {entryId};
    }

    method Spend(entryId: string, spent: Budget)
      modifies this
      ensures attempts == old(attempts)[entryId := spent]
    {
      attempts := attempts[entryId := spent];
    }

    /** `_raise_for_setup_probes`; returning is Load, ConfigEntryAuthFailed is Reauth, ConfigEntryNotReady is Retry. */
    method RaiseForSetupProbes(entryId: string, p: Probes) returns (outcome: Outcome)
      modifies this
      ensures outcome == Decide(p, BudgetOf(old(attempts), entryId)).0
      ensures attempts == Attempted(old(attempts), entryId, p)
    {
      if entryId !in attempts {
        attempts := attempts[entryId := UNSPENT];
      }
      var budget := attempts[entryId];
      var available, unreachable := AnyIs(p, Available), AnyIs(p, Unreachable);
      if unreachable && !available {
        return Retry;
      }
      if unreachable && budget.partial < SETUP_PROBE_RETRIES {
        Spend(entryId, budget.(partial := budget.partial + 1));
        return Retry;
      }
      if available {
        Clear(entryId);
        return Load;
      }
      if AnyIs(p, AuthFailed) {
        Clear(entryId);
        return Reauth;
      }
      if budget.inconclusive < SETUP_PROBE_RETRIES {
        Spend(entryId, budget.(inconclusive := budget.inconclusive + 1));
        return Retry;
      }
      Clear(entryId);
      return Reauth;
    }
  }

  // ---------- Runs over all entries ----------

  /** A setup attempt of an entry, or its unloading or removal. */
  datatype Event = Attempt(entryId: string, probes: Probes) | Forget(entryId: string)

  function Applied(attempts: Attempts, e: Event): Attempts {
    match e
    case Attempt(entryId, probes) => Attempted(attempts, entryId, probes)
    case Forget(entryId) => Cleared(attempts, entryId)
  }

  /** The counters after the first `n` events. */
  function After(run: seq<Event>, n: nat): Attempts
    requires n <= |run|
  {
    if n == 0 then map[] else Applied(After(run, n - 1), run[n - 1])
  }

  /** How the attempt at `i` ended. */
  function OutcomeAt(run: seq<Event>, i: nat): Outcome
    requires i < |run| && run[i].Attempt?
  {
    Decide(run[i].probes, BudgetOf(After(run, i), run[i].entryId)).0
  }

  lemma {:induction false} CountersBounded(run: seq<Event>, n: nat, entryId: string)
    requires n <= |run|
    ensures var b := BudgetOf(After(run, n), entryId); b.partial <= SETUP_PROBE_RETRIES && b.inconclusive <= SETUP_PROBE_RETRIES
  {
    if n > 0 {
      CountersBounded(run, n - 1, entryId);
    }
  }

  /** The budget an entry would have if its own events were the only ones. */
  function OwnBudget(run: seq<Event>, n: nat, entryId: string): Budget
    requires n <= |run|
  {
    if n == 0 then UNSPENT
    else
      var before, e := OwnBudget(run, n - 1, entryId), run[n - 1];
      if e.entryId != entryId then before
      else if e.Forget? then UNSPENT
      else Decide(e.probes, before).1
  }

  /** One entry's attempts never affect another's; a terminal outcome clears the counters. */
  lemma {:induction false} EntriesIndependent(run: seq<Event>, n: nat, entryId: string)
    requires n <= |run|
    ensures BudgetOf(After(run, n), entryId) == OwnBudget(run, n, entryId)
  {
    if n > 0 {
      EntriesIndependent(run, n - 1, entryId);
    }
  }

  /** The entry's attempts from `i` up to `j` that were no outage. */
  function Counted(run: seq<Event>, entryId: string, i: nat, j: nat): nat
    requires i <= j <= |run|
    decreases j - i
  {
    if i == j then 0
    else Counted(run, entryId, i, j - 1)
         + (if run[j - 1].Attempt? && run[j - 1].entryId == entryId && !Outage(run[j - 1].probes) then 1 else 0)
  }

  /** The entry neither loads, nor starts reauth, nor is unloaded from `i` up to `j`. */
  ghost predicate KeepsRetrying(run: seq<Event>, entryId: string, i: nat, j: nat)
    requires i <= j <= |run|
  {
    forall k :: i <= k < j && run[k].entryId == entryId ==> run[k].Attempt? && OutcomeAt(run, k) == Retry
  }

  /** Each such attempt spends exactly one unit of budget. */
  lemma {:induction false} RetriesSpend(run: seq<Event>, entryId: string, i: nat, j: nat)
    requires i <= j <= |run| && KeepsRetrying(run, entryId, i, j)
    ensures var b, b' := BudgetOf(After(run, i), entryId), BudgetOf(After(run, j), entryId);
      b'.partial + b'.inconclusive == b.partial + b.inconclusive + Counted(run, entryId, i, j)
    decreases j - i
  {
    if i < j {
      RetriesSpend(run, entryId, i, j - 1);
    }
  }

  /** Among any seven attempts that are no outage, one loads or starts reauth, or the entry is unloaded. */
  lemma SevenAttemptsDecide(run: seq<Event>, entryId: string, i: nat, j: nat)
    requires i <= j <= |run| && Counted(run, entryId, i, j) >= 7
    ensures !KeepsRetrying(run, entryId, i, j)
  {
    CountersBounded(run, j, entryId);
    if KeepsRetrying(run, entryId, i, j) {
      RetriesSpend(run, entryId, i, j);
    }
  }

  /** Six retries can happen: three with one application missing, three with none answering usefully. */
  lemma SixRetriesPossible(entryId: string)
    ensures var partly, nothing := Attempt(entryId, Probes(Available, Unreachable, None)), Attempt(entryId, Probes(Empty, Empty, None));
      var run := [partly, partly, partly, nothing, nothing, nothing];
      Counted(run, entryId, 0, 6) == 6 && KeepsRetrying(run, entryId, 0, 6)
  {
    var partly, nothing := Attempt(entryId, Probes(Available, Unreachable, None)), Attempt(entryId, Probes(Empty, Empty, None));
    var run := [partly, partly, partly, nothing, nothing, nothing];
    SpentAfter(run, entryId, 1, Budget(1, 0));
    SpentAfter(run, entryId, 2, Budget(2, 0));
    SpentAfter(run, entryId, 3, Budget(3, 0));
    SpentAfter(run, entryId, 4, Budget(3, 1));
    SpentAfter(run, entryId, 5, Budget(3, 2));
    assert Counted(run, entryId, 0, 2) == 2;
    assert Counted(run, entryId, 0, 4) == 4;
  }

  lemma SpentAfter(run: seq<Event>, entryId: string, n: nat, spent: Budget)
    requires 0 < n <= |run| && run[n - 1].Attempt? && run[n - 1].entryId == entryId
    requires Decide(run[n - 1].probes, BudgetOf(After(run, n - 1), entryId)) == (Retry, spent)
    ensures BudgetOf(After(run, n), entryId) == spent
  {
  }
}

/** The rule change event entity: every change fires once, in order. */
module RuleChanges {
  import opened Text

  datatype ChangeType = Added | Modified | Deleted

  /** A record as listed in a snapshot; missing or malformed fields are None. */
  datatype Record = Record(sequence: Option<int>, changeType: Option<ChangeType>)

  /** A well-formed change record. */
  datatype Change = Change(sequence: int, changeType: ChangeType)

  type Snapshot = seq<Record>

  predicate WellFormed(r: Record) {
    r.sequence.Some? && r.changeType.Some?
  }

  function ValidChanges(snapshot: Snapshot): (changes: seq<Change>)
    ensures forall c :: c in changes <==> Shows(snapshot, c)
  {
    if snapshot == [] then []
    else (if WellFormed(snapshot[0]) then [Change(snapshot[0].sequence.value, snapshot[0].changeType.value)] else [])
         + ValidChanges(snapshot[1..])
  }

  /** The snapshot lists this change. */
  predicate Shows(snapshot: Snapshot, c: Change) {
    Record(Some(c.sequence), Some(c.changeType)) in snapshot
  }

  predicate Sorted(changes: seq<Change>) {
    forall i, j :: 0 <= i < j < |changes| ==> changes[i].sequence <= changes[j].sequence
  }

  /** Stable insertion before the first number that is not smaller. */
  function Insert(c: Change, sorted: seq<Change>): seq<Change> {
    if sorted == [] || c.sequence <= sorted[0].sequence then [c] + sorted else [sorted[0]] + Insert(c, sorted[1..])
  }

  /** Python's `sorted` by sequence number. */
  function SortChanges(changes: seq<Change>): seq<Change> {
    if changes == [] then [] else Insert(changes[0], SortChanges(changes[1..]))
  }

  lemma {:induction false} InsertSorts(c: Change, sorted: seq<Change>)
    requires Sorted(sorted)
    ensures Sorted(Insert(c, sorted))
    ensures forall x :: x in Insert(c, sorted) <==> x == c || x in sorted
  {
    if sorted != [] && c.sequence > sorted[0].sequence {
      InsertSorts(c, sorted[1..]);
      assert forall x :: x in sorted <==> x == sorted[0] || x in sorted[1..];
      assert forall x :: x in sorted[1..] ==> sorted[0].sequence <= x.sequence;
      var rest := Insert(c, sorted[1..]);
      assert forall i :: 0 <= i < |rest| ==> rest[i] in rest;
    }
  }

  lemma {:induction false} SortSorts(changes: seq<Change>)
    ensures Sorted(SortChanges(changes))
    ensures forall x :: x in SortChanges(changes) <==> x in changes
  {
    if changes != [] {
      SortSorts(changes[1..]);
      InsertSorts(changes[0], SortChanges(changes[1..]));
      assert forall x :: x in changes <==> x == changes[0] || x in changes[1..];
    }
  }

  /** `_site_changes`: well-formed records, oldest first. */
  function SiteChanges(snapshot: Snapshot): seq<Change> {
    SortChanges(ValidChanges(snapshot))
  }

  lemma SiteChangesSorted(snapshot: Snapshot)
    ensures Sorted(SiteChanges(snapshot)) && forall c :: c in SiteChanges(snapshot) <==> Shows(snapshot, c)
  {
    SortSorts(ValidChanges(snapshot));
  }

  // ---------- What one update reports ----------

  function Max(a: int, b: int): int {
    if a < b then b else a
  }

  /** The changes above the mark, in order, the first of each number only. */
  function News(changes: seq<Change>, mark: int): seq<Change> {
    if changes == [] then []
    else if changes[0].sequence <= mark then News(changes[1..], mark)
    else [changes[0]] + News(changes[1..], changes[0].sequence)
  }

  /** The mark once the changes have been reported. */
  function Mark(changes: seq<Change>, mark: int): int {
    if changes == [] then mark else Mark(changes[1..], Max(mark, changes[0].sequence))
  }

  /** The mark of a new entity: the largest number already listed, 0 if there is none. */
  function FirstMark(snapshot: Snapshot): int {
    var changes := SiteChanges(snapshot);
    if changes == [] then 0 else Mark(changes[1..], changes[0].sequence)
  }

  class RuleChangeEvent {
    var lastSequence: int
    var lastAvailable: bool
    // Events triggered so far, and how often the state was written.
    var fired: seq<Change>
    var writes: nat

    /** Changes detected before the entity existed are history, not news. */
    constructor (snapshot: Snapshot, available: bool)
      ensures lastSequence == FirstMark(snapshot) && lastAvailable == available && fired == [] && writes == 0
    {
      lastSequence := FirstMark(snapshot);
      lastAvailable := available;
      fired := [];
      writes := 0;
    }

    /** `_handle_coordinator_update` */
    method HandleUpdate(snapshot: Snapshot, available: bool)
      modifies this
      ensures fired == old(fired) + News(SiteChanges(snapshot), old(lastSequence))
      ensures lastSequence == Mark(SiteChanges(snapshot), old(lastSequence))
      ensures lastAvailable == available
      // A state write per event, or one when only the availability changed.
      ensures var n := |News(SiteChanges(snapshot), old(lastSequence))|;
        writes == old(writes) + (if n > 0 then n else if available != old(lastAvailable) then 1 else 0)
    {
      hide News, Mark, SiteChanges;
      var wroteEvent := false;
      var changes := SiteChanges(snapshot);
      assert changes[0..] == changes;
      for i := 0 to |changes|
        invariant fired + News(changes[i..], lastSequence) == old(fired) + News(changes, old(lastSequence))
        invariant Mark(changes[i..], lastSequence) == Mark(changes, old(lastSequence))
        invariant |old(fired)| <= |fired| && writes == old(writes) + (|fired| - |old(fired)|)
        invariant wroteEvent <==> |fired| > |old(fired)|
        invariant lastAvailable == old(lastAvailable)
      {
        var change := changes[i];
        NewsNext(changes, i, lastSequence);
        if change.sequence > lastSequence {
          lastSequence := change.sequence;
          ghost var later := News(changes[i + 1..], lastSequence);
          assert fired + ([change] + later) == fired + [change] + later;
          fired := fired + [change];
          writes := writes + 1;
          wroteEvent := true;
        }
      }
      NothingLeft(changes, lastSequence);
      if !wroteEvent && available != lastAvailable {
        writes := writes + 1;
      }
      lastAvailable := available;
    }
  }

  lemma NewsNext(changes: seq<Change>, i: nat, mark: int)
    requires i < |changes|
    ensures News(changes[i..], mark)
            == if changes[i].sequence <= mark then News(changes[i + 1..], mark)
               else [changes[i]] + News(changes[i + 1..], changes[i].sequence)
    ensures Mark(changes[i..], mark) == Mark(changes[i + 1..], Max(mark, changes[i].sequence))
  {
    assert changes[i..][0] == changes[i] && changes[i..][1..] == changes[i + 1..];
  }

  lemma NothingLeft(changes: seq<Change>, mark: int)
    ensures News(changes[|changes|..], mark) == [] && Mark(changes[|changes|..], mark) == mark
  {
  }

  // ---------- What one update reports, stated directly ----------

  /** Strictly increasing sequence numbers, all above `low`. */
  predicate Ascending(changes: seq<Change>, low: int) {
    && (forall i :: 0 <= i < |changes| ==> changes[i].sequence > low)
    && (forall i, j :: 0 <= i < j < |changes| ==> changes[i].sequence < changes[j].sequence)
  }

  /** Some change of this number is among them. */
  ghost predicate Numbered(changes: seq<Change>, sequence: int) {
    exists c :: c in changes && c.sequence == sequence
  }

  lemma {:induction false} NewsOfSorted(changes: seq<Change>, mark: int)
    requires Sorted(changes)
    ensures var news := News(changes, mark);
      && Ascending(news, mark)
      && (forall c :: c in news ==> c in changes)
      && (forall n :: Numbered(news, n) <==> Numbered(changes, n) && n > mark)
  {
    if changes == [] {
    } else if changes[0].sequence <= mark {
      NewsOfSorted(changes[1..], mark);
      assert forall c :: c in changes <==> c == changes[0] || c in changes[1..];
      forall n | n > mark ensures Numbered(changes, n) <==> Numbered(changes[1..], n) {
      }
    } else {
      NewsOfSorted(changes[1..], changes[0].sequence);
      HeadReported(changes, mark);
    }
  }

  lemma HeadReported(changes: seq<Change>, mark: int)
    requires Sorted(changes) && changes != [] && changes[0].sequence > mark
    requires var rest := News(changes[1..], changes[0].sequence);
      && Ascending(rest, changes[0].sequence) && (forall c :: c in rest ==> c in changes[1..])
      && (forall n :: Numbered(rest, n) <==> Numbered(changes[1..], n) && n > changes[0].sequence)
    ensures var news := News(changes, mark);
      && Ascending(news, mark)
      && (forall c :: c in news ==> c in changes)
      && (forall n :: Numbered(news, n) <==> Numbered(changes, n) && n > mark)
  {
    var head, tail := changes[0], changes[1..];
    var rest := News(tail, head.sequence);
    assert News(changes, mark) == [head] + rest && changes == [head] + tail;
    hide News, Numbered, Sorted;
    forall n ensures Numbered([head] + rest, n) <==> Numbered(changes, n) && n > mark {
      NumberedCons(head, rest, n);
      NumberedCons(head, tail, n);
      TailNumbers(changes, n);
    }
    forall c | c in [head] + rest ensures c in changes {
    }
  }

  lemma TailNumbers(changes: seq<Change>, n: int)
    requires Sorted(changes) && changes != []
    ensures Numbered(changes[1..], n) ==> n >= changes[0].sequence
  {
  }

  lemma NumberedCons(head: Change, tail: seq<Change>, n: int)
    ensures Numbered([head] + tail, n) <==> n == head.sequence || Numbered(tail, n)
  {
    var all := [head] + tail;
    if n == head.sequence {
      assert head in all;
    }
    if Numbered(tail, n) {
      var c :| c in tail && c.sequence == n;
      assert c in all;
    }
  }

  lemma {:induction false} MarkIsMax(changes: seq<Change>, mark: int)
    ensures var m := Mark(changes, mark);
      && m >= mark && (forall c :: c in changes ==> c.sequence <= m)
      && (m == mark || Numbered(changes, m))
  {
    if changes != [] {
      MarkIsMax(changes[1..], Max(mark, changes[0].sequence));
      assert changes[0] in changes;
      assert forall c :: c in changes <==> c == changes[0] || c in changes[1..];
    }
  }

  // ---------- Which change of a number is reported ----------

  /** The changes of one number, in order. */
  function OfNumber(changes: seq<Change>, n: int): seq<Change> {
    if changes == [] then []
    else (if changes[0].sequence == n then [changes[0]] else []) + OfNumber(changes[1..], n)
  }

  lemma OfNumberCons(c: Change, rest: seq<Change>, n: int)
    ensures OfNumber([c] + rest, n) == (if c.sequence == n then [c] else []) + OfNumber(rest, n)
  {
    assert ([c] + rest)[1..] == rest;
  }

  lemma {:induction false} InsertStable(c: Change, sorted: seq<Change>, n: int)
    requires Sorted(sorted)
    ensures OfNumber(Insert(c, sorted), n) == OfNumber([c] + sorted, n)
  {
    hide OfNumber;
    if sorted != [] && c.sequence > sorted[0].sequence {
      var head, tail := sorted[0], sorted[1..];
      InsertStable(c, tail, n);
      OfNumberCons(head, Insert(c, tail), n);
      OfNumberCons(c, tail, n);
      OfNumberCons(c, sorted, n);
      assert sorted == [head] + tail;
      OfNumberCons(head, tail, n);
    }
  }

  /** Sorting keeps the order of changes with one number. */
  lemma {:induction false} SortStable(changes: seq<Change>, n: int)
    ensures OfNumber(SortChanges(changes), n) == OfNumber(changes, n)
  {
    if changes != [] {
      var rest := SortChanges(changes[1..]);
      SortSorts(changes[1..]);
      SortStable(changes[1..], n);
      InsertStable(changes[0], rest, n);
      OfNumberCons(changes[0], rest, n);
    }
  }

  lemma {:induction false} NewsIsFirst(changes: seq<Change>, mark: int, c: Change)
    requires Sorted(changes) && c in News(changes, mark)
    ensures OfNumber(changes, c.sequence) != [] && OfNumber(changes, c.sequence)[0] == c
  {
    if changes[0].sequence <= mark {
      NewsOfSorted(changes[1..], mark);
      NewsIsFirst(changes[1..], mark, c);
    } else if c != changes[0] {
      NewsOfSorted(changes[1..], changes[0].sequence);
      assert c in News(changes[1..], changes[0].sequence);
      NewsIsFirst(changes[1..], changes[0].sequence, c);
    }
  }

  /** The record at `i` is the first well-formed one with its number. */
  ghost predicate FirstListed(snapshot: Snapshot, i: nat, c: Change) {
    && i < |snapshot| && snapshot[i] == Record(Some(c.sequence), Some(c.changeType))
    && forall j :: 0 <= j < i && snapshot[j].changeType.Some? ==> snapshot[j].sequence != Some(c.sequence)
  }

  lemma {:induction false} FirstOfNumber(snapshot: Snapshot, c: Change)
    requires var same := OfNumber(ValidChanges(snapshot), c.sequence); same != [] && same[0] == c
    ensures exists i: nat :: FirstListed(snapshot, i, c)
  {
    if snapshot != [] {
      var rest := ValidChanges(snapshot[1..]);
      if WellFormed(snapshot[0]) {
        assert ValidChanges(snapshot) == [Change(snapshot[0].sequence.value, snapshot[0].changeType.value)] + rest;
        assert ValidChanges(snapshot)[1..] == rest;
      } else {
        assert ValidChanges(snapshot) == rest;
      }
      if WellFormed(snapshot[0]) && snapshot[0].sequence.value == c.sequence {
        assert FirstListed(snapshot, 0, c);
      } else {
        FirstOfNumber(snapshot[1..], c);
        var i: nat :| FirstListed(snapshot[1..], i, c);
        assert FirstListed(snapshot, i + 1, c);
      }
    }
  }

  /** Of several records with one number, the one listed first is reported. */
  lemma FirstListedIsReported(snapshot: Snapshot, mark: int, c: Change)
    requires c in News(SiteChanges(snapshot), mark)
    ensures exists i: nat :: FirstListed(snapshot, i, c)
  {
    hide News, OfNumber, ValidChanges, SortChanges, FirstListed;
    SiteChangesSorted(snapshot);
    NewsIsFirst(SiteChanges(snapshot), mark, c);
    SortStable(ValidChanges(snapshot), c.sequence);
    FirstOfNumber(snapshot, c);
  }

  // ---------- Runs ----------

  // A run is the snapshot at construction and the snapshots of all later updates.

  function MarkAfter(first: Snapshot, updates: seq<Snapshot>, n: nat): int
    requires n <= |updates|
  {
    if n == 0 then FirstMark(first) else Mark(SiteChanges(updates[n - 1]), MarkAfter(first, updates, n - 1))
  }

  function FiredAfter(first: Snapshot, updates: seq<Snapshot>, n: nat): seq<Change>
    requires n <= |updates|
  {
    if n == 0 then []
    else FiredAfter(first, updates, n - 1) + News(SiteChanges(updates[n - 1]), MarkAfter(first, updates, n - 1))
  }

  /** The change was listed at construction or in one of the first `n` updates. */
  ghost predicate ShownBefore(first: Snapshot, updates: seq<Snapshot>, n: nat, c: Change)
    requires n <= |updates|
  {
    Shows(first, c) || exists j :: 0 <= j < n && Shows(updates[j], c)
  }

  /** The mark at construction is the largest number listed then, 0 if there is none. */
  lemma FirstMarkIsMax(first: Snapshot)
    ensures forall c :: Shows(first, c) ==> c.sequence <= FirstMark(first)
    ensures if exists c :: Shows(first, c) then exists c :: Shows(first, c) && c.sequence == FirstMark(first) else FirstMark(first) == 0
  {
    var changes := SiteChanges(first);
    SiteChangesSorted(first);
    if changes != [] {
      MarkIsMax(changes[1..], changes[0].sequence);
      assert changes[0] in changes && forall c :: c in changes <==> c == changes[0] || c in changes[1..];
    } else {
      forall c ensures !Shows(first, c) {
        assert c !in changes;
      }
    }
  }

  /** The mark is the largest number shown so far, or the initial 0. */
  lemma {:induction false} MarkIsLargestShown(first: Snapshot, updates: seq<Snapshot>, n: nat)
    requires n <= |updates|
    ensures var m := MarkAfter(first, updates, n);
      && m >= FirstMark(first)
      && (forall c :: ShownBefore(first, updates, n, c) ==> c.sequence <= m)
      && (m == 0 || exists c :: ShownBefore(first, updates, n, c) && c.sequence == m)
  {
    hide SiteChanges, Mark, FirstMark, Shows;
    if n == 0 {
      FirstMarkIsMax(first);
      if FirstMark(first) != 0 {
        var c :| Shows(first, c) && c.sequence == FirstMark(first);
        assert ShownBefore(first, updates, 0, c);
      }
    } else {
      MarkIsLargestShown(first, updates, n - 1);
      SiteChangesSorted(updates[n - 1]);
      MarkIsMax(SiteChanges(updates[n - 1]), MarkAfter(first, updates, n - 1));
      forall c ensures ShownBefore(first, updates, n, c) <==> ShownBefore(first, updates, n - 1, c) || Shows(updates[n - 1], c) {
      }
    }
  }

  /** Fired numbers strictly increase and stay above the one at construction. */
  lemma {:induction false} FiresInOrder(first: Snapshot, updates: seq<Snapshot>, n: nat)
    requires n <= |updates|
    ensures Ascending(FiredAfter(first, updates, n), FirstMark(first))
    ensures forall c :: c in FiredAfter(first, updates, n) ==> c.sequence <= MarkAfter(first, updates, n)
  {
    if n > 0 {
      hide SiteChanges, FirstMark, News, Mark, Sorted, Ascending;
      FiresInOrder(first, updates, n - 1);
      MarkNeverFalls(first, updates, n - 1);
      SiteChangesSorted(updates[n - 1]);
      FiresNext(FiredAfter(first, updates, n - 1), SiteChanges(updates[n - 1]), FirstMark(first), MarkAfter(first, updates, n - 1));
    }
  }

  lemma {:induction false} MarkNeverFalls(first: Snapshot, updates: seq<Snapshot>, n: nat)
    requires n <= |updates|
    ensures MarkAfter(first, updates, n) >= FirstMark(first)
  {
    if n > 0 {
      MarkNeverFalls(first, updates, n - 1);
      MarkIsMax(SiteChanges(updates[n - 1]), MarkAfter(first, updates, n - 1));
    }
  }

  lemma FiresNext(fired: seq<Change>, changes: seq<Change>, low: int, mark: int)
    requires Sorted(changes) && Ascending(fired, low) && low <= mark && forall c :: c in fired ==> c.sequence <= mark
    ensures Ascending(fired + News(changes, mark), low)
    ensures forall c :: c in fired + News(changes, mark) ==> c.sequence <= Mark(changes, mark)
  {
    NewsOfSorted(changes, mark);
    MarkIsMax(changes, mark);
    AscendingConcat(fired, News(changes, mark), low, mark);
  }

  lemma AscendingConcat(a: seq<Change>, b: seq<Change>, low: int, mid: int)
    requires Ascending(a, low) && Ascending(b, mid) && low <= mid
    requires forall c :: c in a ==> c.sequence <= mid
    ensures Ascending(a + b, low)
  {
    assert forall i :: 0 <= i < |a| ==> a[i] in a;
  }

  /** New records carry positive numbers, larger than all shown before, and distinct from each other. */
  ghost predicate NumbersGrow(first: Snapshot, updates: seq<Snapshot>) {
    forall j, c :: 0 <= j < |updates| && Shows(updates[j], c) && !ShownBefore(first, updates, j, c) ==>
                     && c.sequence > 0
                     && (forall e :: ShownBefore(first, updates, j, e) ==> e.sequence < c.sequence)
                     && (forall d :: Shows(updates[j], d) && d.sequence == c.sequence ==> d == c)
  }

  /** A change is among the fired ones exactly if it was first shown after construction. */
  lemma {:induction false} FiresEveryNewChange(first: Snapshot, updates: seq<Snapshot>, n: nat, c: Change)
    requires n <= |updates| && NumbersGrow(first, updates)
    ensures c in FiredAfter(first, updates, n) <==> !Shows(first, c) && exists j :: 0 <= j < n && Shows(updates[j], c)
  {
    hide SiteChanges, News, Shows, NumbersGrow, MarkAfter;
    if n > 0 {
      FiresEveryNewChange(first, updates, n - 1, c);
      NewsIsNew(first, updates, n - 1, c);
    }
  }

  lemma NewsIsNew(first: Snapshot, updates: seq<Snapshot>, j: nat, c: Change)
    requires j < |updates| && NumbersGrow(first, updates)
    ensures c in News(SiteChanges(updates[j]), MarkAfter(first, updates, j))
            <==> Shows(updates[j], c) && !ShownBefore(first, updates, j, c)
  {
    hide SiteChanges, News, Shows, ShownBefore;
    var changes, mark := SiteChanges(updates[j]), MarkAfter(first, updates, j);
    SiteChangesSorted(updates[j]);
    MarkIsLargestShown(first, updates, j);
    NewsOfSorted(changes, mark);
    if c in News(changes, mark) {
      assert c.sequence > mark;
    }
    if Shows(updates[j], c) && !ShownBefore(first, updates, j, c) {
      assert c.sequence > mark && Numbered(changes, c.sequence);
      var f :| f in News(changes, mark) && f.sequence == c.sequence;
    }
  }

  /** And it fires once: no position of the fired events repeats another. */
  lemma FiresOnce(first: Snapshot, updates: seq<Snapshot>, n: nat, i: nat, j: nat)
    requires n <= |updates| && i < j < |FiredAfter(first, updates, n)|
    ensures FiredAfter(first, updates, n)[i] != FiredAfter(first, updates, n)[j]
  {
    FiresInOrder(first, updates, n);
  }
}

/** Merging placed and unplaced InnerSpace records into the coordinator's snapshot. */
module InnerSpaceSnapshot {
  import opened Text
  import opened InnerSpace
  import opened InnerSpaceView

  /** A transformed record; `id` is None unless it is a non-empty string. */
  datatype Item = Item(id: Option<string>, reading: Reading)

  /** Of several items with one ID, the last counts. */
  function Latest(items: seq<Item>): map<string, Reading> {
    if items == [] then map[]
    else
      var before, last := Latest(items[..|items| - 1]), items[|items| - 1];
      if last.id.Some? then before[last.id.value := last.reading] else before
  }

  ghost function Readings(section: Section): map<string, Reading> {
    map id | id in section :: section[id].reading
  }

  /** Each ID has a record of its own. */
  ghost predicate OwnRecords(section: Section) {
    forall a, b :: a in section && b in section && a != b ==> section[a] != section[b]
  }

  lemma LatestNext(items: seq<Item>, i: nat)
    requires i < |items|
    ensures Latest(items[..i + 1])
            == if items[i].id.Some? then Latest(items[..i])[items[i].id.value := items[i].reading] else Latest(items[..i])
  {
    assert items[..i + 1][..i] == items[..i];
  }

  /** The loop over access points, and the one over switches. */
  method Place(items: seq<Item>, before: Section) returns (section: Section, placed: Section)
    ensures Readings(section) == Latest(items) && OwnRecords(section)
    ensures placed == before + section
    ensures forall id :: id in section ==> fresh(section[id]) && Labelled(section[id], None)
  {
    hide Latest, Labelled;
    section, placed := map[], before;
    NoneLatest(items);
    for i := 0 to |items|
      invariant Readings(section) == Latest(items[..i]) && OwnRecords(section)
      invariant placed == before + section
      invariant forall id :: id in section ==> fresh(section[id]) && Labelled(section[id], None)
    {
      LatestNext(items, i);
      if items[i].id.Some? {
        var record := new Record(items[i].reading);
        section, placed := section[items[i].id.value := record], placed[items[i].id.value := record];
      }
    }
    assert items[..|items|] == items;
  }

  lemma NoneLatest(items: seq<Item>)
    ensures Latest(items[..0]) == map[]
  {
  }

  /** The loop over the inventory: a placed ID keeps its placed record. */
  method Unplaced(items: seq<Item>, placed: Section) returns (section: Section)
    ensures Readings(section) == Latest(items) - placed.Keys
    ensures forall id :: id in section ==> fresh(section[id])
  {
    hide Latest, Labelled;
    section := map[];
    NoneLatest(items);
    for i := 0 to |items|
      invariant Readings(section) == Latest(items[..i]) - placed.Keys
      invariant forall id :: id in section ==> fresh(section[id])
    {
      LatestNext(items, i);
      if items[i].id.Some? {
        PlacedSkipped(Latest(items[..i]), items[i].id.value, items[i].reading, placed.Keys);
      }
      if items[i].id.Some? && items[i].id.value !in placed {
        var record := new Record(items[i].reading);
        section := section[items[i].id.value := record];
      }
    }
    assert items[..|items|] == items;
  }

  lemma PlacedSkipped(before: map<string, Reading>, id: string, reading: Reading, placed: set<string>)
    ensures before[id := reading] - placed == if id in placed then before - placed else (before - placed)[id := reading]
  {
  }

  datatype Snapshot = Snapshot(accessPoints: Section, switches: Section, placed: Section, inventory: Section, devices: Section,
                               correlations: map<string, Option<Candidate>>)

  /**
   * The merge of `normalize_innerspace_snapshot`. Placed and unplaced records never share
   * an ID, and every published device agrees with the published correlations.
   */
  method NormalizeSnapshot(accessPointItems: seq<Item>, switchItems: seq<Item>, inventoryItems: seq<Item>, net: Network, prot: Protect)
    returns (snapshot: Snapshot)
    requires DistinctSites(net)
    ensures Readings(snapshot.accessPoints) == Latest(accessPointItems) && Readings(snapshot.switches) == Latest(switchItems)
    ensures snapshot.placed == snapshot.accessPoints + snapshot.switches
    ensures Readings(snapshot.inventory) == Latest(inventoryItems) - snapshot.placed.Keys
    ensures snapshot.inventory.Keys !! snapshot.placed.Keys && snapshot.devices == snapshot.inventory + snapshot.placed
    ensures snapshot.correlations == WantedIn(snapshot.devices, net, prot)
    ensures forall id :: id in snapshot.devices ==> Labelled(snapshot.devices[id], snapshot.correlations[id])
    // An access point whose ID a switch repeats stays unmatched in its own section.
    ensures forall id :: id in snapshot.accessPoints && id in snapshot.switches ==> Labelled(snapshot.accessPoints[id], None)
  {
    hide Latest, Labelled, DistinctSites, WantedIn, Wanted, Overlay, Records, Values, AllMatched, Readings, OwnRecords;
    var accessPoints, switches, placed, inventory := Collect(accessPointItems, switchItems, inventoryItems);
    var sections := [placed, inventory];
    Disjoint(inventory, placed, inventoryItems);
    OverlayOfTwo(placed, inventory);
    var correlations := CorrelateDevices(sections, net, prot);
    var devices := inventory + placed;
    assert devices == placed + inventory;
    AllOfTwo(placed, inventory);
    MatchedInView(devices, Records(sections), net, prot);
    snapshot := Snapshot(accessPoints, switches, placed, inventory, devices, correlations);
  }

  /** The records before they are matched; shadowed ones are in neither section to match. */
  method Collect(accessPointItems: seq<Item>, switchItems: seq<Item>, inventoryItems: seq<Item>)
    returns (accessPoints: Section, switches: Section, placed: Section, inventory: Section)
    ensures Readings(accessPoints) == Latest(accessPointItems) && Readings(switches) == Latest(switchItems)
    ensures Readings(inventory) == Latest(inventoryItems) - placed.Keys
    ensures placed == accessPoints + switches
    ensures forall r :: r in Records([placed, inventory]) ==> fresh(r)
    ensures forall id :: id in accessPoints && id in switches ==>
                           accessPoints[id] !in Records([placed, inventory]) && Labelled(accessPoints[id], None)
  {
    hide Latest, Labelled, Records, Readings;
    var placedPoints;
    accessPoints, placedPoints := Place(accessPointItems, map[]);
    assert placedPoints == accessPoints;
    switches, placed := Place(switchItems, placedPoints);
    inventory := Unplaced(inventoryItems, placed);
    RecordsOfTwo(placed, inventory);
  }

  lemma Disjoint(inventory: Section, placed: Section, items: seq<Item>)
    requires Readings(inventory) == Latest(items) - placed.Keys
    ensures inventory.Keys !! placed.Keys
  {
    assert Readings(inventory).Keys == inventory.Keys;
  }

  lemma OverlayOfTwo(a: Section, b: Section)
    ensures Overlay([a, b]) == a + b
  {
    assert [a, b][..1] == [a] && [a][..0] == [];
    assert Overlay([a]) == Overlay([a][..0]) + a == a;
  }

  lemma RecordsOfTwo(a: Section, b: Section)
    ensures forall r :: r in Records([a, b]) ==> (exists id :: id in a && a[id] == r) || (exists id :: id in b && b[id] == r)
    ensures forall id :: id in a ==> a[id] in Records([a, b])
    ensures forall id :: id in b ==> b[id] in Records([a, b])
  {
    var sections := [a, b];
    forall id | id in a ensures a[id] in Records(sections) {
      assert sections[0] == a;
    }
    forall id | id in b ensures b[id] in Records(sections) {
      assert sections[1] == b;
    }
  }

  lemma AllOfTwo(a: Section, b: Section)
    ensures Values(b + a) <= Records([a, b])
  {
    hide Records;
    RecordsOfTwo(a, b);
  }
}

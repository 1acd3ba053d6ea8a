/** The MAC indexes, and writing matches into the shared records of the InnerSpace view. */
module InnerSpaceView {
  import opened Text
  import opened InnerSpace

  // ---------- Indexes ----------

  /** Candidates by MAC, in scan order. */
  type Index = map<string, seq<Candidate>>

  function Lookup(index: Index, mac: string): seq<Candidate> {
    if mac in index then index[mac] else []
  }

  /** `index.setdefault(mac, []).append(c)` */
  function Appended(index: Index, c: Candidate): Index {
    index[c.mac := Lookup(index, c.mac) + [c]]
  }

  /** The index answers every lookup as scanning the candidates would. */
  ghost predicate Indexes(index: Index, candidates: seq<Candidate>) {
    forall mac :: Lookup(index, mac) == WithMac(candidates, mac)
  }

  lemma {:induction false} WithMacAppend(candidates: seq<Candidate>, c: Candidate, mac: string)
    ensures WithMac(candidates + [c], mac) == WithMac(candidates, mac) + (if c.mac == mac then [c] else [])
  {
    if candidates == [] {
      assert candidates + [c] == [c] && [c][1..] == [];
    } else {
      assert (candidates + [c])[1..] == candidates[1..] + [c];
      WithMacAppend(candidates[1..], c, mac);
    }
  }

  lemma IndexesAppended(index: Index, candidates: seq<Candidate>, c: Candidate)
    requires Indexes(index, candidates)
    ensures Indexes(Appended(index, c), candidates + [c])
  {
    forall mac ensures Lookup(Appended(index, c), mac) == WithMac(candidates + [c], mac) {
      WithMacAppend(candidates, c, mac);
      assert Lookup(index, mac) == WithMac(candidates, mac);
    }
  }

  function CandidateList(p: Part): seq<Candidate> {
    if CandidateOf(p).Some? then [CandidateOf(p).value] else []
  }

  lemma {:induction false} CandidatesAppend(parts: seq<Part>, p: Part)
    ensures Candidates(parts + [p]) == Candidates(parts) + CandidateList(p)
  {
    hide CandidateOf;
    if parts == [] {
      assert parts + [p] == [p];
      OneCandidate(p);
    } else {
      var head, last := CandidateList(parts[0]), CandidateList(p);
      assert (parts + [p])[1..] == parts[1..] + [p];
      CandidatesAppend(parts[1..], p);
      assert head + (Candidates(parts[1..]) + last) == head + Candidates(parts[1..]) + last;
    }
  }

  lemma OneCandidate(p: Part)
    ensures Candidates([p]) == CandidateList(p)
  {
    hide CandidateOf;
    assert [p][1..] == [];
  }

  lemma {:induction false} SitePartsAppend(site: string, devices: Devices, next: (string, Option<Device>))
    ensures SiteParts(site, devices + [next])
            == SiteParts(site, devices) + (if next.1.Some? then [NetworkPartOf(site, next.0, next.1.value)] else [])
  {
    hide NetworkPartOf;
    if devices == [] {
      assert devices + [next] == [next];
      OneSitePart(site, next);
    } else {
      assert (devices + [next])[1..] == devices[1..] + [next];
      SitePartsAppend(site, devices[1..], next);
    }
  }

  lemma OneSitePart(site: string, next: (string, Option<Device>))
    ensures SiteParts(site, [next]) == if next.1.Some? then [NetworkPartOf(site, next.0, next.1.value)] else []
  {
    hide NetworkPartOf;
    assert [next][1..] == [];
  }

  lemma {:induction false} CollectionPartsAppend(collection: Collection, devices: Devices, next: (string, Option<Device>))
    ensures CollectionParts(collection, devices + [next])
            == CollectionParts(collection, devices) + (if next.1.Some? then [ProtectPartOf(collection, next.0, next.1.value)] else [])
  {
    hide ProtectPartOf;
    if devices == [] {
      assert devices + [next] == [next];
      OneCollectionPart(collection, next);
    } else {
      var head, rest, last := CollectionParts(collection, devices[..1]), CollectionParts(collection, devices[1..]), CollectionParts(collection, [next]);
      OneCollectionPart(collection, devices[0]);
      OneCollectionPart(collection, next);
      assert devices[..1] == [devices[0]] && (devices + [next])[1..] == devices[1..] + [next];
      CollectionPartsAppend(collection, devices[1..], next);
      assert head + (rest + last) == head + rest + last;
    }
  }

  lemma OneCollectionPart(collection: Collection, next: (string, Option<Device>))
    ensures CollectionParts(collection, [next]) == if next.1.Some? then [ProtectPartOf(collection, next.0, next.1.value)] else []
  {
    hide ProtectPartOf;
    assert [next][1..] == [];
  }

  lemma {:induction false} NetworkKeyAppend(net: Network, next: (string, Option<Devices>))
    ensures NetworkKey(net + [next]) == NetworkKey(net) + (if next.1.Some? then SiteParts(next.0, next.1.value) else [])
  {
    hide SiteParts;
    if net == [] {
      assert net + [next] == [next] && [next][1..] == [];
    } else {
      assert (net + [next])[1..] == net[1..] + [next];
      NetworkKeyAppend(net[1..], next);
    }
  }

  lemma {:induction false} CollectionKeyAppend(prot: Protect, collections: seq<Collection>, next: Collection)
    ensures CollectionKey(prot, collections + [next])
            == CollectionKey(prot, collections) + (if next in prot then CollectionParts(next, prot[next]) else [])
  {
    hide CollectionParts;
    if collections == [] {
      assert collections + [next] == [next] && [next][1..] == [];
    } else {
      assert (collections + [next])[1..] == collections[1..] + [next];
      CollectionKeyAppend(prot, collections[1..], next);
    }
  }

  ghost predicate DistinctSites(net: Network) {
    forall i, j :: 0 <= i < j < |net| ==> net[i].0 != net[j].0
  }

  /** Adds one part to both indexes of a loop, if it is a candidate. */
  function Grown(index: Index, p: Part): Index {
    if CandidateOf(p).Some? then Appended(index, CandidateOf(p).value) else index
  }

  lemma GrownIndexes(index: Index, parts: seq<Part>, p: Part)
    requires Indexes(index, Candidates(parts))
    ensures Indexes(Grown(index, p), Candidates(parts + [p]))
  {
    hide CandidateOf, Indexes, Appended;
    CandidatesAppend(parts, p);
    if CandidateOf(p).Some? {
      IndexesAppended(index, Candidates(parts), CandidateOf(p).value);
    } else {
      assert Candidates(parts + [p]) == Candidates(parts);
    }
  }

  /** The inner loop of `_index_network_devices_by_mac`. */
  method IndexSite(site: string, devices: Devices, all: Index, ghost before: seq<Part>) returns (siteMap: Index, all': Index)
    requires Indexes(all, Candidates(before))
    ensures Indexes(siteMap, Candidates(SiteParts(site, devices)))
    ensures Indexes(all', Candidates(before + SiteParts(site, devices)))
  {
    hide Indexes, Candidates, CandidateOf, SiteParts, Grown;
    siteMap, all' := map[], all;
    NothingIndexed(site, devices, before);
    for i := 0 to |devices|
      invariant Indexes(siteMap, Candidates(SiteParts(site, devices[..i])))
      invariant Indexes(all', Candidates(before + SiteParts(site, devices[..i])))
    {
      SitePartsAppend(site, devices[..i], devices[i]);
      assert devices[..i] + [devices[i]] == devices[..i + 1];
      if devices[i].1.Some? {
        var part := NetworkPartOf(site, devices[i].0, devices[i].1.value);
        ghost var done := SiteParts(site, devices[..i]);
        GrownIndexes(siteMap, done, part);
        GrownIndexes(all', before + done, part);
        assert before + done + [part] == before + (done + [part]);
        siteMap, all' := Grown(siteMap, part), Grown(all', part);
      } else {
        assert SiteParts(site, devices[..i + 1]) == SiteParts(site, devices[..i]);
      }
    }
    assert devices[..|devices|] == devices;
  }

  lemma NothingIndexed(site: string, devices: Devices, before: seq<Part>)
    ensures Indexes(map[], Candidates(SiteParts(site, devices[..0])))
    ensures before + SiteParts(site, devices[..0]) == before
  {
  }

  /** Each named site's own index. */
  ghost predicate IndexesSites(bySite: map<string, Index>, net: Network) {
    && bySite.Keys == SiteNames(net)
    && forall i :: 0 <= i < |net| && net[i].1.Some? ==>
                     net[i].0 in bySite && Indexes(bySite[net[i].0], Candidates(SiteParts(net[i].0, net[i].1.value)))
  }

  /** `_index_network_devices_by_mac`. */
  method IndexNetwork(net: Network) returns (bySite: map<string, Index>, all: Index)
    requires DistinctSites(net)
    ensures IndexesSites(bySite, net) && Indexes(all, Candidates(NetworkKey(net)))
  {
    hide IndexesSites, Indexes, SiteParts, Candidates, NetworkKey;
    bySite, all := map[], map[];
    NoSitesIndexed(net);
    for i := 0 to |net|
      invariant IndexesSites(bySite, net[..i])
      invariant Indexes(all, Candidates(NetworkKey(net[..i])))
    {
      assert net[..i] + [net[i]] == net[..i + 1];
      NetworkKeyAppend(net[..i], net[i]);
      if net[i].1.Some? {
        var siteMap;
        siteMap, all := IndexSite(net[i].0, net[i].1.value, all, NetworkKey(net[..i]));
        SiteIndexed(bySite, net, i, siteMap);
        bySite := bySite[net[i].0 := siteMap];
      } else {
        SiteSkipped(bySite, net, i);
        assert NetworkKey(net[..i + 1]) == NetworkKey(net[..i]);
      }
    }
    assert net[..|net|] == net;
  }

  lemma NoSitesIndexed(net: Network)
    ensures IndexesSites(map[], net[..0]) && Indexes(map[], Candidates(NetworkKey(net[..0])))
  {
  }

  lemma SiteIndexed(bySite: map<string, Index>, net: Network, i: nat, siteMap: Index)
    requires DistinctSites(net) && i < |net| && net[i].1.Some? && IndexesSites(bySite, net[..i])
    requires Indexes(siteMap, Candidates(SiteParts(net[i].0, net[i].1.value)))
    ensures IndexesSites(bySite[net[i].0 := siteMap], net[..i + 1])
  {
    hide Indexes, SiteParts, Candidates;
    SiteNamesNext(net, i);
    forall k | 0 <= k < i && net[k].1.Some?
      ensures net[k].0 in bySite && Indexes(bySite[net[k].0], Candidates(SiteParts(net[k].0, net[k].1.value)))
    {
      assert net[..i][k] == net[k];
    }
  }

  lemma SiteSkipped(bySite: map<string, Index>, net: Network, i: nat)
    requires i < |net| && net[i].1.None? && IndexesSites(bySite, net[..i])
    ensures IndexesSites(bySite, net[..i + 1])
  {
    hide Indexes, SiteParts, Candidates;
    SiteNamesNext(net, i);
    assert forall k :: 0 <= k < i ==> net[..i][k] == net[k];
  }

  lemma SiteNamesNext(net: Network, i: nat)
    requires i < |net|
    ensures SiteNames(net[..i + 1]) == SiteNames(net[..i]) + (if net[i].1.Some? then {net[i].0} else {})
  {
    assert net[..i + 1] == net[..i] + [net[i]];
  }

  /** `_index_protect_devices_by_mac`. */
  method IndexProtect(prot: Protect) returns (all: Index)
    ensures Indexes(all, Candidates(ProtectKey(prot)))
  {
    hide Indexes, Candidates, CandidateOf, CollectionParts, Grown;
    all := map[];
    NoCollectionIndexed(prot);
    for k := 0 to |COLLECTIONS|
      invariant Indexes(all, Candidates(CollectionKey(prot, COLLECTIONS[..k])))
    {
      var collection := COLLECTIONS[k];
      assert COLLECTIONS[..k] + [collection] == COLLECTIONS[..k + 1];
      CollectionKeyAppend(prot, COLLECTIONS[..k], collection);
      if collection in prot {
        var devices := prot[collection];
        ghost var before := CollectionKey(prot, COLLECTIONS[..k]);
        NoDeviceIndexed(collection, devices, before);
        for i := 0 to |devices|
          invariant Indexes(all, Candidates(before + CollectionParts(collection, devices[..i])))
        {
          CollectionPartsAppend(collection, devices[..i], devices[i]);
          assert devices[..i] + [devices[i]] == devices[..i + 1];
          if devices[i].1.Some? {
            var part := ProtectPartOf(collection, devices[i].0, devices[i].1.value);
            ghost var done := CollectionParts(collection, devices[..i]);
            GrownIndexes(all, before + done, part);
            assert before + done + [part] == before + (done + [part]);
            all := Grown(all, part);
          } else {
            assert CollectionParts(collection, devices[..i + 1]) == CollectionParts(collection, devices[..i]);
          }
        }
        assert devices[..|devices|] == devices;
      } else {
        assert CollectionKey(prot, COLLECTIONS[..k + 1]) == CollectionKey(prot, COLLECTIONS[..k]);
      }
    }
    assert COLLECTIONS[..|COLLECTIONS|] == COLLECTIONS;
  }

  lemma NoCollectionIndexed(prot: Protect)
    ensures Indexes(map[], Candidates(CollectionKey(prot, COLLECTIONS[..0])))
  {
  }

  lemma NoDeviceIndexed(collection: Collection, devices: Devices, before: seq<Part>)
    ensures before + CollectionParts(collection, devices[..0]) == before
  {
  }

  /** A site's slice of the key is what its own index was built from. */
  lemma {:induction false} OfSiteIsSiteParts(net: Network, i: nat)
    requires DistinctSites(net) && i < |net| && net[i].1.Some?
    ensures OfSite(NetworkKey(net), net[i].0) == SiteParts(net[i].0, net[i].1.value)
  {
    hide SiteParts, NetworkPartOf;
    var head := if net[0].1.Some? then SiteParts(net[0].0, net[0].1.value) else [];
    OfSiteConcat(head, NetworkKey(net[1..]), net[i].0);
    if net[0].1.Some? {
      OfSiteOfParts(net[0].0, net[0].1.value, net[i].0);
    }
    if i == 0 {
      NoLaterParts(net[1..], net[0].0);
    } else {
      OfSiteIsSiteParts(net[1..], i - 1);
    }
  }

  lemma {:induction false} OfSiteConcat(ps: seq<Part>, qs: seq<Part>, site: string)
    ensures OfSite(ps + qs, site) == OfSite(ps, site) + OfSite(qs, site)
  {
    if ps == [] {
      assert ps + qs == qs;
    } else {
      assert (ps + qs)[1..] == ps[1..] + qs;
      OfSiteConcat(ps[1..], qs, site);
    }
  }

  lemma {:induction false} OfSiteOfParts(name: string, devices: Devices, site: string)
    ensures OfSite(SiteParts(name, devices), site) == if name == site then SiteParts(name, devices) else []
  {
    if devices != [] {
      OfSiteOfParts(name, devices[1..], site);
      var head := if devices[0].1.Some? then [NetworkPartOf(name, devices[0].0, devices[0].1.value)] else [];
      OfSiteConcat(head, SiteParts(name, devices[1..]), site);
      if head != [] {
        assert head[1..] == [];
      }
    }
  }

  lemma {:induction false} NoLaterParts(net: Network, site: string)
    requires forall i :: 0 <= i < |net| ==> net[i].0 != site
    ensures OfSite(NetworkKey(net), site) == []
  {
    if net != [] {
      NoLaterParts(net[1..], site);
      var head := if net[0].1.Some? then SiteParts(net[0].0, net[0].1.value) else [];
      OfSiteConcat(head, NetworkKey(net[1..]), site);
      if net[0].1.Some? {
        OfSiteOfParts(net[0].0, net[0].1.value, site);
      }
    }
  }

  // ---------- Looking a record up ----------

  function Found(bySite: map<string, Index>, all: Index, prot: Index, mac: string, site: Value): seq<Candidate> {
    (if Narrows(bySite.Keys, site) then Lookup(bySite[site.text], mac) else Lookup(all, mac)) + Lookup(prot, mac)
  }

  /** Looking up the indexes finds what scanning every device in scope finds. */
  lemma FoundIsScanned(net: Network, prot: Protect, bySite: map<string, Index>, all: Index, protIndex: Index, mac: string, site: Value)
    requires DistinctSites(net) && IndexesSites(bySite, net) && Indexes(all, Candidates(NetworkKey(net)))
    requires Indexes(protIndex, Candidates(ProtectKey(prot)))
    ensures Found(bySite, all, protIndex, mac, site) == WithMac(Scope(net, prot, site), mac)
  {
    hide NetworkKey, SiteParts, Candidates, ProtectKey, OfSite, WithMac;
    var parts := if Narrows(SiteNames(net), site) then OfSite(NetworkKey(net), site.text) else NetworkKey(net);
    WithMacConcat(Candidates(parts), Candidates(ProtectKey(prot)), mac);
    if Narrows(SiteNames(net), site) {
      var i :| 0 <= i < |net| && net[i].1.Some? && net[i].0 == site.text;
      OfSiteIsSiteParts(net, i);
    }
  }

  // ---------- Records ----------

  datatype Application = NetworkApp | ProtectApp

  function ApplicationOf(c: Candidate): Application {
    if c.deviceType.Reported? then NetworkApp else ProtectApp
  }

  /** What the correlation reads of a record; the transform set it and nothing here writes it. */
  datatype Reading = Reading(normalizedMac: Option<string>, mac: Value, siteId: Value)

  /** One record dictionary; sections of a view share them. */
  class Record {
    const reading: Reading
    // What the correlation writes.
    var correlation: Option<Candidate>
    var matchedDomain: Option<Application>
    var matchedSiteId: Option<string>
    var matchedDeviceId: Option<string>
    var matchedProtectType: Option<DeviceType>

    constructor (reading: Reading)
      ensures this.reading == reading && Labelled(this, None)
    {
      this.reading := reading;
      correlation, matchedDomain, matchedSiteId, matchedDeviceId, matchedProtectType := None, None, None, None, None;
    }
  }

  function RecordMac(r: Reading): Option<string> {
    if r.normalizedMac.Some? && r.normalizedMac.value != "" then r.normalizedMac else NormalizeMac(r.mac)
  }

  /** The device a record belongs to, by the plain scan. */
  function Wanted(net: Network, prot: Protect, r: Reading): Option<Candidate> {
    if RecordMac(r).None? then None else Match(net, prot, RecordMac(r).value, r.siteId)
  }

  /** A record's stored MAC counts if it is filled in, else its raw one, normalized. */
  predicate HasMac(r: Reading, mac: string) {
    if r.normalizedMac in {None, Some("")} then NormalizeMac(r.mac) == Some(mac) else r.normalizedMac == Some(mac)
  }

  /** A record is matched exactly to the only device in its scope that has its MAC. */
  lemma WantedIsOnly(net: Network, prot: Protect, r: Reading, c: Candidate)
    ensures Wanted(net, prot, r) == Some(c)
            <==> exists mac, i :: HasMac(r, mac) && OnlyOne(Scope(net, prot, r.siteId), mac, i) && Scope(net, prot, r.siteId)[i] == c
  {
    hide NormalizeMac, Scope;
    if RecordMac(r).Some? {
      MatchIsUnambiguous(net, prot, RecordMac(r).value, r.siteId, c);
    }
  }

  /** A match names the application its device belongs to: Network devices have a site, Protect devices a collection. */
  lemma WantedApplication(net: Network, prot: Protect, r: Reading)
    ensures var w := Wanted(net, prot, r);
      w.Some? ==>
        && (ApplicationOf(w.value) == NetworkApp <==> w.value.siteId.Some?)
        && (ApplicationOf(w.value) == ProtectApp <==> w.value.deviceType.OfCollection?)
  {
    hide NormalizeMac, Scope, NetworkPartOf, ProtectPartOf, HasMac;
    var w := Wanted(net, prot, r);
    if w.Some? {
      WantedIsOnly(net, prot, r, w.value);
      var mac, i :| HasMac(r, mac) && OnlyOne(Scope(net, prot, r.siteId), mac, i) && Scope(net, prot, r.siteId)[i] == w.value;
      OnlyIsIn(Scope(net, prot, r.siteId), mac, i);
      ScopeHolds(net, prot, r.siteId, w.value);
    }
  }

  lemma OnlyIsIn(s: seq<Candidate>, mac: string, i: int)
    requires OnlyOne(s, mac, i)
    ensures 0 <= i < |s| && s[i] in s
  {
  }

  /** All five match fields of the record say `c`. */
  ghost predicate Labelled(r: Record, c: Option<Candidate>)
    reads r
  {
    && r.correlation == c
    && r.matchedDomain == (if c.Some? then Some(ApplicationOf(c.value)) else None)
    && r.matchedSiteId == (if c.Some? then c.value.siteId else None)
    && r.matchedDeviceId == (if c.Some? then Some(c.value.deviceId) else None)
    && r.matchedProtectType == (if c.Some? && c.value.deviceType.OfCollection? then Some(c.value.deviceType) else None)
  }

  method Write(r: Record, c: Option<Candidate>)
    modifies r
    ensures Labelled(r, c)
    // Writing the same match again changes nothing.
    ensures old(Labelled(r, c)) ==> unchanged(r)
  {
    r.correlation := c;
    if c.Some? {
      r.matchedDomain, r.matchedSiteId, r.matchedDeviceId := Some(ApplicationOf(c.value)), c.value.siteId, Some(c.value.deviceId);
      r.matchedProtectType := if c.value.deviceType.OfCollection? then Some(c.value.deviceType) else None;
    } else {
      r.matchedDomain, r.matchedSiteId, r.matchedDeviceId, r.matchedProtectType := None, None, None, None;
    }
  }

  type Section = map<string, Record>

  ghost function Values(section: Section): set<Record> {
    set id | id in section :: section[id]
  }

  method MatchOf(reading: Reading, bySite: map<string, Index>, all: Index, protIndex: Index, ghost net: Network, ghost prot: Protect)
    returns (found: Option<Candidate>)
    requires DistinctSites(net) && IndexesSites(bySite, net) && Indexes(all, Candidates(NetworkKey(net)))
    requires Indexes(protIndex, Candidates(ProtectKey(prot)))
    ensures found == Wanted(net, prot, reading)
  {
    hide Indexes, IndexesSites, Found, NormalizeMac, DistinctSites, Candidates, NetworkKey, ProtectKey, Scope;
    var mac := RecordMac(reading);
    if mac.None? {
      return None;
    }
    FoundIsScanned(net, prot, bySite, all, protIndex, mac.value, reading.siteId);
    found := Sole(Found(bySite, all, protIndex, mac.value, reading.siteId));
  }

  /** Every one of the records carries its match. */
  ghost predicate AllMatched(records: set<Record>, net: Network, prot: Protect)
    reads records
  {
    forall r :: r in records ==> Matched(r, net, prot)
  }

  ghost predicate Matched(r: Record, net: Network, prot: Protect)
    reads r
  {
    Labelled(r, Wanted(net, prot, r.reading))
  }

  /** What each record of the section should be matched to. */
  ghost function WantedIn(section: Section, net: Network, prot: Protect): map<string, Option<Candidate>> {
    map id | id in section :: Wanted(net, prot, section[id].reading)
  }

  /** Matches every record of one section, keys in any order; records matched before stay so. */
  method CorrelateSection(section: Section, bySite: map<string, Index>, all: Index, protIndex: Index, ghost net: Network, ghost prot: Protect,
                          ghost done: set<Record>)
    returns (labels: map<string, Option<Candidate>>)
    requires DistinctSites(net) && IndexesSites(bySite, net) && Indexes(all, Candidates(NetworkKey(net)))
    requires Indexes(protIndex, Candidates(ProtectKey(prot))) && AllMatched(done, net, prot)
    modifies Values(section)
    ensures AllMatched(done + Values(section), net, prot) && labels == WantedIn(section, net, prot)
    ensures forall r :: r in Values(section) && old(Matched(r, net, prot)) ==> unchanged(r)
  {
    hide Indexes, IndexesSites, DistinctSites, Wanted, Candidates, NetworkKey, ProtectKey, SiteParts, Labelled;
    labels := map[];
    var pending := section.Keys;
    while pending != {}
      invariant pending <= section.Keys && labels.Keys == section.Keys - pending
      invariant forall id :: id in labels ==>
                               labels[id] == Wanted(net, prot, section[id].reading) && Matched(section[id], net, prot)
      invariant forall r :: r in Values(section) && old(Matched(r, net, prot)) ==> unchanged(r)
      decreases pending
    {
      var id :| id in pending;
      var found := MatchOf(section[id].reading, bySite, all, protIndex, net, prot);
      assert section[id] in Values(section);
      Write(section[id], found);
      labels := labels[id := found];
      pending := pending - {id};
    }
  }

  ghost function Records(sections: seq<Section>): set<Record> {
    set k, id | 0 <= k < |sections| && id in sections[k] :: sections[k][id]
  }

  ghost function AlreadyMatched(sections: seq<Section>, net: Network, prot: Protect): set<Record>
    reads Records(sections)
  {
    set k, id | 0 <= k < |sections| && id in sections[k] && Matched(sections[k][id], net, prot) :: sections[k][id]
  }

  /** The sections laid over each other, later ones on top. */
  ghost function Overlay(sections: seq<Section>): Section {
    if sections == [] then map[] else Overlay(sections[..|sections| - 1]) + sections[|sections| - 1]
  }

  lemma OverlayNext(sections: seq<Section>, k: nat)
    requires k < |sections|
    ensures Overlay(sections[..k + 1]) == Overlay(sections[..k]) + sections[k]
  {
    assert sections[..k + 1][..k] == sections[..k];
  }

  /**
   * `correlate_innerspace_devices` over sections that may share records. Only the
   * match fields are written; of several records with one ID, the last counts.
   */
  method CorrelateDevices(sections: seq<Section>, net: Network, prot: Protect)
    returns (correlations: map<string, Option<Candidate>>)
    requires DistinctSites(net)
    modifies Records(sections)
    ensures AllMatched(Records(sections), net, prot)
    ensures correlations == WantedIn(Overlay(sections), net, prot)
    // Correlating once more changes nothing.
    ensures forall r :: r in old(AlreadyMatched(sections, net, prot)) ==> unchanged(r)
  {
    hide Indexes, IndexesSites, DistinctSites, Wanted, WantedIn, Candidates, NetworkKey, ProtectKey, SiteParts, Matched, AllMatched, Overlay;
    ghost var kept := AlreadyMatched(sections, net, prot);
    var bySite, all := IndexNetwork(net);
    var protIndex := IndexProtect(prot);
    correlations := map[];
    NoOverlay(sections, net, prot);
    NoneMatched(net, prot);
    ghost var done: set<Record> := {};
    for k := 0 to |sections|
      invariant done <= Records(sections) && forall i :: 0 <= i < k ==> Values(sections[i]) <= done
      invariant AllMatched(done, net, prot)
      invariant correlations == WantedIn(Overlay(sections[..k]), net, prot)
      invariant forall r :: r in kept ==> unchanged(r)
    {
      var section := sections[k];
      SectionOf(sections, k);
      OverlayNext(sections, k);
      WantedOverlaid(Overlay(sections[..k]), section, net, prot);
      var labels := CorrelateSection(section, bySite, all, protIndex, net, prot, done);
      done := done + Values(section);
      correlations := correlations + labels;
    }
    assert sections[..|sections|] == sections;
    AllSections(sections, done);
    assert done == Records(sections);
  }

  lemma NoneMatched(net: Network, prot: Protect)
    ensures AllMatched({}, net, prot)
  {
  }

  lemma NoOverlay(sections: seq<Section>, net: Network, prot: Protect)
    ensures Overlay(sections[..0]) == map[] && WantedIn(map[], net, prot) == map[]
  {
  }

  lemma WantedOverlaid(below: Section, above: Section, net: Network, prot: Protect)
    ensures WantedIn(below + above, net, prot) == WantedIn(below, net, prot) + WantedIn(above, net, prot)
  {
    hide Wanted;
  }

  lemma SectionOf(sections: seq<Section>, k: nat)
    requires k < |sections|
    ensures Values(sections[k]) <= Records(sections)
  {
  }

  lemma AllSections(sections: seq<Section>, done: set<Record>)
    requires forall i :: 0 <= i < |sections| ==> Values(sections[i]) <= done
    ensures Records(sections) <= done
  {
    forall r | r in Records(sections) ensures r in done {
      var k, id :| 0 <= k < |sections| && id in sections[k] && sections[k][id] == r;
      assert r in Values(sections[k]);
    }
  }

  // ---------- The view ----------

  /** The raw InnerSpace data; its records belong to the coordinator. */
  datatype RawData = RawData(accessPoints: Section, switches: Section, inventory: Section)

  /** The published view. `devices` and `placed` hold the very records of the other sections. */
  datatype View = View(accessPoints: Section, switches: Section, inventory: Section, placed: Section, devices: Section,
                       correlations: map<string, Option<Candidate>>)

  /** The copy has the same IDs, and its records read the same. */
  ghost predicate ReadsLike(copy: Section, section: Section) {
    copy.Keys == section.Keys && forall id :: id in section ==> copy[id].reading == section[id].reading
  }

  /** `{id: dict(record)}` */
  method CopySection(section: Section) returns (copy: Section)
    ensures ReadsLike(copy, section)
    ensures forall id :: id in copy ==> fresh(copy[id])
  {
    copy := map[];
    var pending := section.Keys;
    while pending != {}
      invariant pending <= section.Keys && copy.Keys == section.Keys - pending
      invariant forall id :: id in copy ==> fresh(copy[id]) && copy[id].reading == section[id].reading
      decreases pending
    {
      var id :| id in pending;
      var record := new Record(section[id].reading);
      copy := copy[id := record];
      pending := pending - {id};
    }
  }

  /**
   * `build_innerspace_view` for present data. It modifies nothing that existed before:
   * every record it writes to is its own copy, so the coordinator's records stay as they are.
   */
  method BuildView(raw: RawData, net: Network, prot: Protect) returns (view: View)
    requires DistinctSites(net)
    ensures view.placed == view.accessPoints + view.switches
    ensures view.devices == view.accessPoints + view.switches + view.inventory
    ensures ReadsLike(view.devices, raw.accessPoints + raw.switches + raw.inventory)
    ensures forall id :: id in view.devices ==> fresh(view.devices[id])
    // The shared records agree with the published correlations ...
    ensures view.correlations.Keys == view.devices.Keys
    ensures forall id :: id in view.devices ==> Labelled(view.devices[id], view.correlations[id])
    // ... and those are what the plain scan says of each raw record.
    ensures view.correlations == WantedIn(raw.accessPoints + raw.switches + raw.inventory, net, prot)
    // Shadowed records, of an ID that a later section repeats, are matched as well.
    ensures AllMatched(Values(view.accessPoints) + Values(view.switches) + Values(view.inventory), net, prot)
  {
    hide DistinctSites, Wanted, Overlay, Records, ReadsLike, WantedIn, Values;
    var accessPoints, switches, inventory, own := CopySections(raw);
    var devices := accessPoints + switches + inventory;
    var sections := [accessPoints, switches, inventory, devices];
    OverlayOfView(accessPoints, switches, inventory);
    SectionsOfView(sections);
    var correlations := CorrelateDevices(sections, net, prot);
    MatchedInView(devices, Records(sections), net, prot);
    WantedAlike(devices, raw.accessPoints + raw.switches + raw.inventory, net, prot);
    view := View(accessPoints, switches, inventory, accessPoints + switches, devices, correlations);
  }

  method CopySections(raw: RawData) returns (accessPoints: Section, switches: Section, inventory: Section, ghost own: set<Record>)
    ensures own == Values(accessPoints) + Values(switches) + Values(inventory) && fresh(own)
    ensures ReadsLike(accessPoints + switches + inventory, raw.accessPoints + raw.switches + raw.inventory)
    ensures Values(accessPoints + switches + inventory) <= own
  {
    accessPoints := CopySection(raw.accessPoints);
    switches := CopySection(raw.switches);
    inventory := CopySection(raw.inventory);
    own := Values(accessPoints) + Values(switches) + Values(inventory);
    hide ReadsLike;
    ReadsLikeOverlaid(accessPoints, raw.accessPoints, switches, raw.switches);
    ReadsLikeOverlaid(accessPoints + switches, raw.accessPoints + raw.switches, inventory, raw.inventory);
  }

  lemma ReadsLikeOverlaid(a: Section, a': Section, b: Section, b': Section)
    requires ReadsLike(a, a') && ReadsLike(b, b')
    ensures ReadsLike(a + b, a' + b')
  {
  }

  lemma MatchedInView(section: Section, records: set<Record>, net: Network, prot: Protect)
    requires AllMatched(records, net, prot) && Values(section) <= records
    ensures WantedIn(section, net, prot).Keys == section.Keys
    ensures forall id :: id in section ==> section[id] in Values(section) && Labelled(section[id], WantedIn(section, net, prot)[id])
  {
    assert forall id :: id in section ==> section[id] in records && Matched(section[id], net, prot);
  }

  lemma WantedAlike(copy: Section, section: Section, net: Network, prot: Protect)
    requires ReadsLike(copy, section)
    ensures WantedIn(copy, net, prot) == WantedIn(section, net, prot)
  {
  }

  lemma SectionsOfView(sections: seq<Section>)
    requires |sections| == 4 && sections[3] == sections[0] + sections[1] + sections[2]
    ensures forall i :: 0 <= i < 4 ==> Values(sections[i]) <= Records(sections)
    ensures Records(sections) <= Values(sections[0]) + Values(sections[1]) + Values(sections[2])
  {
    forall i | 0 <= i < 4 ensures Values(sections[i]) <= Records(sections) {
      SectionOf(sections, i);
    }
    AllSections(sections, Values(sections[0]) + Values(sections[1]) + Values(sections[2]));
  }

  lemma OverlayOfView(a: Section, b: Section, c: Section)
    ensures Overlay([a, b, c, a + b + c]) == a + b + c
  {
    hide Overlay;
    var all := [a, b, c, a + b + c];
    NoOverlay(all, [], map[]);
    OverlayNext(all, 0);
    OverlayNext(all, 1);
    OverlayNext(all, 2);
    OverlayNext(all, 3);
    assert all[..4] == all;
  }
}

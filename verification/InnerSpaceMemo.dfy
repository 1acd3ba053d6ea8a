/** How far the InnerSpace correlation key determines the correlation. */
module InnerSpaceMemo {
  import opened Text
  import opened InnerSpace

  // ---------- Comparing keys and matches as Python does ----------

  predicate PartEq(p: Part, q: Part) {
    match (p, q)
    case (NetworkPart(s, d, m, i, k), NetworkPart(s', d', m', i', k')) =>
      s == s' && d == d' && PyEq(m, m') && PyEq(i, i') && PyEq(k, k')
    case (ProtectPart(c, d, m, i), ProtectPart(c', d', m', i')) =>
      c == c' && d == d' && PyEq(m, m') && PyEq(i, i')
    case _ => false
  }

  ghost predicate KeyEq(ps: seq<Part>, qs: seq<Part>) {
    |ps| == |qs| && forall i :: 0 <= i < |ps| ==> PartEq(ps[i], qs[i])
  }

  /** Equal but for the device ID, which renders the ID of the record. */
  predicate CandidateNear(c: Candidate, d: Candidate) {
    && c.siteId == d.siteId && c.mac == d.mac
    && match (c.deviceType, d.deviceType)
       case (Reported(v), Reported(w)) => PyEq(v, w)
       case (OfCollection(a), OfCollection(b)) => a == b
       case _ => false
  }

  predicate CandidateEq(c: Candidate, d: Candidate) {
    CandidateNear(c, d) && c.deviceId == d.deviceId
  }

  predicate MatchEq(a: Option<Candidate>, b: Option<Candidate>) {
    (a.None? && b.None?) || (a.Some? && b.Some? && CandidateEq(a.value, b.value))
  }

  ghost predicate AllNear(cs: seq<Candidate>, ds: seq<Candidate>) {
    |cs| == |ds| && forall i :: 0 <= i < |cs| ==> CandidateNear(cs[i], ds[i])
  }

  ghost predicate SameIds(cs: seq<Candidate>, ds: seq<Candidate>) {
    |cs| == |ds| && forall i :: 0 <= i < |cs| ==> cs[i].deviceId == ds[i].deviceId
  }

  /** No device ID in the key is a number or boolean. */
  ghost predicate TextualIds(ps: seq<Part>) {
    forall p :: p in ps ==> p.id.Null? || p.id.Str?
  }

  // ---------- Equal keys make near scans ----------

  lemma {:induction false} NearCandidates(ps: seq<Part>, qs: seq<Part>)
    requires KeyEq(ps, qs)
    ensures AllNear(Candidates(ps), Candidates(qs))
    ensures TextualIds(ps) ==> SameIds(Candidates(ps), Candidates(qs))
  {
    hide CandidateOf, PartEq, CandidateNear;
    if ps != [] {
      assert PartEq(ps[0], qs[0]) && KeyEq(ps[1..], qs[1..]);
      NearCandidates(ps[1..], qs[1..]);
      NearCandidate(ps[0], qs[0]);
      assert ps[0] in ps;
    }
  }

  lemma NearCandidate(p: Part, q: Part)
    requires PartEq(p, q)
    ensures var c, d := CandidateOf(p), CandidateOf(q);
      && c.Some? == d.Some?
      && (c.Some? ==> CandidateNear(c.value, d.value))
      && (c.Some? && (p.id.Null? || p.id.Str?) ==> c.value.deviceId == d.value.deviceId)
  {
    hide NormalizeMac;
    EqualMacs(p.mac, q.mac);
  }

  lemma EqualMacs(a: Value, b: Value)
    requires PyEq(a, b)
    ensures NormalizeMac(a) == NormalizeMac(b)
  {
    assert a == b || (!a.Str? && !b.Str?);
  }

  lemma {:induction false} EqOfSite(ps: seq<Part>, qs: seq<Part>, site: string)
    requires KeyEq(ps, qs)
    ensures KeyEq(OfSite(ps, site), OfSite(qs, site))
    ensures forall p :: p in OfSite(ps, site) ==> p in ps
  {
    if ps != [] {
      assert PartEq(ps[0], qs[0]) && KeyEq(ps[1..], qs[1..]);
      EqOfSite(ps[1..], qs[1..], site);
      SameSite(ps[0], qs[0], site);
      hide PartEq;
      assert forall p :: p in ps[1..] ==> p in ps;
    }
  }

  lemma SameSite(p: Part, q: Part, site: string)
    requires PartEq(p, q)
    ensures (p.NetworkPart? && p.site == site) == (q.NetworkPart? && q.site == site)
  {
  }

  lemma {:induction false} NearWithMac(cs: seq<Candidate>, ds: seq<Candidate>, mac: string)
    requires AllNear(cs, ds)
    ensures AllNear(WithMac(cs, mac), WithMac(ds, mac))
  {
    if cs != [] {
      assert CandidateNear(cs[0], ds[0]) && AllNear(cs[1..], ds[1..]);
      NearWithMac(cs[1..], ds[1..], mac);
    }
  }

  /** In near scans the same position holds the only device with a MAC. */
  lemma SameOnlyDevice(cs: seq<Candidate>, ds: seq<Candidate>, mac: string)
    requires AllNear(cs, ds)
    ensures MatchEq(Sole(WithMac(cs, mac)), Sole(WithMac(ds, mac)))
            <==> forall i :: OnlyOne(cs, mac, i) ==> cs[i].deviceId == ds[i].deviceId
  {
    hide WithMac;
    NearWithMac(cs, ds, mac);
    if |WithMac(cs, mac)| == 1 {
      var i := SoleIsOnly(cs, mac);
      OnlyNear(cs, ds, mac, i);
      OnlyIsSole(ds, mac, i);
    }
    if i :| OnlyOne(cs, mac, i) {
      OnlyIsSole(cs, mac, i);
    }
  }

  lemma OnlyNear(cs: seq<Candidate>, ds: seq<Candidate>, mac: string, i: int)
    requires AllNear(cs, ds) && OnlyOne(cs, mac, i)
    ensures OnlyOne(ds, mac, i)
  {
    forall j | 0 <= j < |ds| && ds[j].mac == mac ensures j == i {
      assert CandidateNear(cs[j], ds[j]);
    }
    assert CandidateNear(cs[i], ds[i]);
  }

  // ---------- Sites without devices ----------

  lemma {:induction false} SitePartsNamed(site: string, devices: Devices)
    ensures forall p :: p in SiteParts(site, devices) ==> p.NetworkPart? && p.site == site
  {
    if devices != [] {
      SitePartsNamed(site, devices[1..]);
    }
  }

  /** Every part of the key belongs to an indexed site. */
  lemma {:induction false} PartsOfKnownSites(net: Network)
    ensures forall p :: p in NetworkKey(net) ==> p.NetworkPart? && p.site in SiteNames(net)
  {
    if net != [] {
      PartsOfKnownSites(net[1..]);
      assert forall entry :: entry in net[1..] ==> entry in net;
      assert net[0] in net;
      if net[0].1.Some? {
        SitePartsNamed(net[0].0, net[0].1.value);
      }
    }
  }

  lemma {:induction false} NoPartsOfSite(ps: seq<Part>, site: string)
    requires forall p :: p in ps ==> !(p.NetworkPart? && p.site == site)
    ensures OfSite(ps, site) == []
  {
    if ps != [] {
      NoPartsOfSite(ps[1..], site);
    }
  }

  // ---------- Soundness of the key ----------

  /** The two inputs have equal memo keys. */
  ghost predicate SameKeys(net: Network, prot: Protect, net': Network, prot': Protect) {
    KeyEq(NetworkKey(net), NetworkKey(net')) && KeyEq(ProtectKey(prot), ProtectKey(prot'))
  }

  /** Every record correlates to the same device under both inputs. */
  ghost predicate SameMatches(net: Network, prot: Protect, net': Network, prot': Protect) {
    forall mac, site :: MatchEq(Match(net, prot, mac, site), Match(net', prot', mac, site))
  }

  /** A named site is indexed under both inputs or under neither. */
  ghost predicate SitesAgree(net: Network, net': Network) {
    forall site :: site != "" ==> (site in SiteNames(net) <==> site in SiteNames(net'))
  }

  predicate SameNarrowing(net: Network, net': Network, site: Value) {
    Narrows(SiteNames(net), site) == Narrows(SiteNames(net'), site)
  }

  /** Whether the Network devices count decides the match of this MAC. */
  ghost predicate Sensitive(net: Network, prot: Protect, mac: string) {
    var n, p := |WithMac(Candidates(NetworkKey(net)), mac)|, |WithMac(Candidates(ProtectKey(prot)), mac)|;
    (p == 1 && n >= 1) || (p == 0 && n == 1)
  }

  /** No device alone with its MAC in a scope has IDs that compare equal but render differently. */
  ghost predicate LoneIdsAgree(net: Network, prot: Protect, net': Network, prot': Protect) {
    forall mac, site, i ::
      SameNarrowing(net, net', site) && OnlyOne(Scope(net, prot, site), mac, i) && i < |Scope(net', prot', site)| ==>
        Scope(net, prot, site)[i].deviceId == Scope(net', prot', site)[i].deviceId
  }

  lemma NearScopes(net: Network, prot: Protect, net': Network, prot': Protect, site: Value)
    requires SameKeys(net, prot, net', prot') && SameNarrowing(net, net', site)
    ensures AllNear(Scope(net, prot, site), Scope(net', prot', site))
    ensures TextualIds(NetworkKey(net)) && TextualIds(ProtectKey(prot)) ==> SameIds(Scope(net, prot, site), Scope(net', prot', site))
  {
    hide NetworkKey, ProtectKey, Candidates, OfSite, PartEq, CandidateNear, SiteNames;
    var narrows := Narrows(SiteNames(net), site);
    if narrows {
      EqOfSite(NetworkKey(net), NetworkKey(net'), site.text);
    }
    var ps := if narrows then OfSite(NetworkKey(net), site.text) else NetworkKey(net);
    var qs := if narrows then OfSite(NetworkKey(net'), site.text) else NetworkKey(net');
    NearCandidates(ps, qs);
    NearCandidates(ProtectKey(prot), ProtectKey(prot'));
  }

  lemma SameScope(net: Network, prot: Protect, net': Network, prot': Protect, mac: string, site: Value)
    requires SameKeys(net, prot, net', prot') && SameNarrowing(net, net', site)
    ensures AllNear(Scope(net, prot, site), Scope(net', prot', site))
    ensures MatchEq(Match(net, prot, mac, site), Match(net', prot', mac, site))
            <==> forall i :: OnlyOne(Scope(net, prot, site), mac, i) ==>
                               Scope(net, prot, site)[i].deviceId == Scope(net', prot', site)[i].deviceId
  {
    hide Scope, SameKeys, CandidateNear;
    NearScopes(net, prot, net', prot', site);
    SameOnlyDevice(Scope(net, prot, site), Scope(net', prot', site), mac);
  }

  /** A site indexed under the first input only has no devices: the key cannot show it. */
  lemma EmptySiteMatch(net: Network, prot: Protect, net': Network, prot': Protect, mac: string, site: Value)
    requires SameKeys(net, prot, net', prot')
    requires Narrows(SiteNames(net), site) && !Narrows(SiteNames(net'), site)
    ensures MatchEq(Match(net, prot, mac, site), Match(net', prot', mac, site))
            <==> !Sensitive(net, prot, mac) && MatchEq(Match(net, prot, mac, Null), Match(net', prot', mac, Null))
  {
    NarrowedToNothing(net, prot, net', prot', site);
    SameCounts(net, prot, net', prot', mac);
    hide SiteNames, NetworkKey, ProtectKey, Candidates, WithMac, CandidateNear;
    var n, p := Candidates(NetworkKey(net)), Candidates(ProtectKey(prot));
    var n', p' := Candidates(NetworkKey(net')), Candidates(ProtectKey(prot'));
    WithMacConcat(n, p, mac);
    WithMacConcat(n', p', mac);
  }

  lemma NarrowedToNothing(net: Network, prot: Protect, net': Network, prot': Protect, site: Value)
    requires SameKeys(net, prot, net', prot')
    requires Narrows(SiteNames(net), site) && !Narrows(SiteNames(net'), site)
    ensures Scope(net, prot, site) == Candidates(ProtectKey(prot))
  {
    PartsOfKnownSites(net');
    NoPartsOfSite(NetworkKey(net'), site.text);
    EqOfSite(NetworkKey(net), NetworkKey(net'), site.text);
  }

  lemma SameCounts(net: Network, prot: Protect, net': Network, prot': Protect, mac: string)
    requires SameKeys(net, prot, net', prot')
    ensures |WithMac(Candidates(NetworkKey(net)), mac)| == |WithMac(Candidates(NetworkKey(net')), mac)|
    ensures |WithMac(Candidates(ProtectKey(prot)), mac)| == |WithMac(Candidates(ProtectKey(prot')), mac)|
  {
    hide NetworkKey, ProtectKey, Candidates, WithMac;
    NearCandidates(NetworkKey(net), NetworkKey(net'));
    NearCandidates(ProtectKey(prot), ProtectKey(prot'));
    NearWithMac(Candidates(NetworkKey(net)), Candidates(NetworkKey(net')), mac);
    NearWithMac(Candidates(ProtectKey(prot)), Candidates(ProtectKey(prot')), mac);
  }

  lemma KeysSymmetric(net: Network, prot: Protect, net': Network, prot': Protect)
    requires SameKeys(net, prot, net', prot')
    ensures SameKeys(net', prot', net, prot)
  {
    EqSymmetric(NetworkKey(net), NetworkKey(net'));
    EqSymmetric(ProtectKey(prot), ProtectKey(prot'));
  }

  lemma EqSymmetric(ps: seq<Part>, qs: seq<Part>)
    requires KeyEq(ps, qs)
    ensures KeyEq(qs, ps)
  {
    forall i | 0 <= i < |ps| ensures PartEq(qs[i], ps[i]) {
      assert PartEq(ps[i], qs[i]);
    }
  }

  lemma EitherScope(net: Network, prot: Protect, net': Network, prot': Protect, mac: string, site: Value)
    requires SameKeys(net, prot, net', prot') && !SameNarrowing(net, net', site)
    ensures MatchEq(Match(net, prot, mac, site), Match(net', prot', mac, site))
            <==> !Sensitive(net, prot, mac) && MatchEq(Match(net, prot, mac, Null), Match(net', prot', mac, Null))
  {
    hide SiteNames, NetworkKey, ProtectKey, Candidates, WithMac, Match, MatchEq, SameKeys;
    if Narrows(SiteNames(net), site) {
      EmptySiteMatch(net, prot, net', prot', mac, site);
    } else {
      KeysSymmetric(net, prot, net', prot');
      EmptySiteMatch(net', prot', net, prot, mac, site);
      SameCounts(net, prot, net', prot', mac);
      MatchSymmetric(Match(net, prot, mac, site), Match(net', prot', mac, site));
      MatchSymmetric(Match(net, prot, mac, Null), Match(net', prot', mac, Null));
    }
  }

  lemma MatchSymmetric(a: Option<Candidate>, b: Option<Candidate>)
    ensures MatchEq(a, b) == MatchEq(b, a)
  {
  }

  /**
   * Equal keys mean equal correlations exactly when the same named sites are indexed or no
   * match depends on its Network devices being in view, and no lone device's ID renders
   * differently.
   */
  lemma MemoKeyDetermines(net: Network, prot: Protect, net': Network, prot': Protect)
    requires SameKeys(net, prot, net', prot')
    ensures SameMatches(net, prot, net', prot')
            <==> (SitesAgree(net, net') || forall mac :: !Sensitive(net, prot, mac)) && LoneIdsAgree(net, prot, net', prot')
  {
    hide SameKeys, Match, Scope, Sensitive, MatchEq, SiteNames, CandidateNear;
    if (SitesAgree(net, net') || forall mac :: !Sensitive(net, prot, mac)) && LoneIdsAgree(net, prot, net', prot') {
      forall mac, site ensures MatchEq(Match(net, prot, mac, site), Match(net', prot', mac, site)) {
        SameScope(net, prot, net', prot', mac, Null);
        if SameNarrowing(net, net', site) {
          SameScope(net, prot, net', prot', mac, site);
        } else {
          EitherScope(net, prot, net', prot', mac, site);
        }
      }
    }
    if SameMatches(net, prot, net', prot') {
      forall mac {
        NothingSensitive(net, prot, net', prot', mac);
      }
      forall mac, site, i | SameNarrowing(net, net', site) && OnlyOne(Scope(net, prot, site), mac, i) && i < |Scope(net', prot', site)|
        ensures Scope(net, prot, site)[i].deviceId == Scope(net', prot', site)[i].deviceId
      {
        SameScope(net, prot, net', prot', mac, site);
        assert MatchEq(Match(net, prot, mac, site), Match(net', prot', mac, site));
      }
    }
  }

  lemma NothingSensitive(net: Network, prot: Protect, net': Network, prot': Protect, mac: string)
    requires SameKeys(net, prot, net', prot') && SameMatches(net, prot, net', prot')
    ensures SitesAgree(net, net') || !Sensitive(net, prot, mac)
  {
    hide SameKeys, Match, Sensitive, MatchEq, SiteNames;
    if !SitesAgree(net, net') {
      var name :| name != "" && (name in SiteNames(net)) != (name in SiteNames(net'));
      EitherScope(net, prot, net', prot', mac, Str(name));
      assert MatchEq(Match(net, prot, mac, Str(name)), Match(net', prot', mac, Str(name)));
    }
  }

  /** Textual IDs always render alike, so then only the indexed sites matter. */
  lemma TextualKeysDetermine(net: Network, prot: Protect, net': Network, prot': Protect)
    requires SameKeys(net, prot, net', prot')
    requires TextualIds(NetworkKey(net)) && TextualIds(ProtectKey(prot))
    ensures SameMatches(net, prot, net', prot') <==> SitesAgree(net, net') || forall mac :: !Sensitive(net, prot, mac)
  {
    hide SameKeys, Scope, TextualIds, SameMatches, SitesAgree, Sensitive;
    forall mac, site, i | SameNarrowing(net, net', site) && OnlyOne(Scope(net, prot, site), mac, i)
      ensures i < |Scope(net', prot', site)| && Scope(net, prot, site)[i].deviceId == Scope(net', prot', site)[i].deviceId
    {
      NearScopes(net, prot, net', prot', site);
    }
    MemoKeyDetermines(net, prot, net', prot');
  }

  // ---------- Where equal keys do not mean equal correlations ----------

  const BARE := "aabbccddeeff"
  const MAC := Colons(BARE)

  lemma SampleMac()
    ensures NormalizeMac(Str(BARE)) == Some(MAC) && Truthy(Str(BARE))
  {
    assert forall i :: 0 <= i < |BARE| ==> IsHex(BARE[i]);
    BareMac(BARE);
  }

  function SampleDevices(id: Value): Devices {
    [("d", Some(Device(Str(BARE), Null, Null, id, Null, Null)))]
  }

  /** One device with the sample MAC, on site "a". */
  function SampleNetwork(id: Value): Network {
    [("a", Some(SampleDevices(id)))]
  }

  function SampleCandidate(id: Value): Candidate {
    Candidate(if Truthy(id) then Show(id) else "d", Some("a"), Reported(Null), MAC)
  }

  /** An empty site narrows a record out of its match but leaves no trace in the key. */
  lemma EmptySiteExample()
    ensures var net, net' := SampleNetwork(Null), SampleNetwork(Null) + [("b", Some([]))];
      && NetworkKey(net) == NetworkKey(net')
      && Match(net, map[], MAC, Str("b")).Some?
      && Match(net', map[], MAC, Str("b")).None?
  {
    hide NormalizeMac, Show, Colons, SampleDevices, SiteParts, Match, Candidates, BARE, MAC;
    var net, net' := SampleNetwork(Null), SampleNetwork(Null) + [("b", Some([]))];
    SampleKey(Null);
    SiteNamesDiffer(net, net');
    SampleMatch(net, Null, Str("b"));
    EmptySiteParts("b");
    assert net'[1..] == [("b", Some([]))] && net[1..] == [];
    assert NetworkKey([("b", Some([]))]) == [];
    NothingInSite(net', "b");
  }

  lemma SiteNamesDiffer(net: Network, net': Network)
    requires net == SampleNetwork(Null) && net' == net + [("b", Some([]))]
    ensures !Narrows(SiteNames(net), Str("b")) && Narrows(SiteNames(net'), Str("b"))
  {
    assert "a" != "b" && "b" != "" by {
      assert "a"[0] == 'a' && "b"[0] == 'b';
    }
    assert net'[1] == ("b", Some([])) && net'[1] in net';
  }

  lemma NothingInSite(net: Network, site: string)
    requires Narrows(SiteNames(net), Str(site)) && forall p :: p in NetworkKey(net) ==> p.NetworkPart? && p.site != site
    ensures Match(net, map[], MAC, Str(site)).None?
  {
    hide NetworkKey, ProtectKey, SiteNames, Colons, BARE;
    NoProtectKey();
    NoPartsOfSite(NetworkKey(net), site);
    assert Scope(net, map[], Str(site)) == [];
  }

  /** Python compares 1 and True as equal, but they render as different device IDs. */
  lemma NumericIdExample()
    ensures var net, net' := SampleNetwork(Int(1)), SampleNetwork(Flag(true));
      && KeyEq(NetworkKey(net), NetworkKey(net'))
      && !MatchEq(Match(net, map[], MAC, Null), Match(net', map[], MAC, Null))
  {
    OneIsNotTrue();
    hide NormalizeMac, Show, Colons, SampleNetwork, NetworkKey, Match, BARE, MAC;
    SampleKey(Int(1));
    SampleKey(Flag(true));
    SampleMatch(SampleNetwork(Int(1)), Int(1), Null);
    SampleMatch(SampleNetwork(Flag(true)), Flag(true), Null);
  }

  /** Without narrowing, the sample device is matched. */
  lemma SampleMatch(net: Network, id: Value, site: Value)
    requires Candidates(NetworkKey(net)) == [SampleCandidate(id)] && !Narrows(SiteNames(net), site)
    ensures Match(net, map[], MAC, site) == Some(SampleCandidate(id))
  {
    hide NetworkKey, Candidates, ProtectKey, SiteNames, Colons, Show;
    NoProtectKey();
    var s := [SampleCandidate(id)];
    assert Scope(net, map[], site) == s && s[1..] == [];
    assert WithMac(s, MAC) == s;
  }

  lemma OneIsNotTrue()
    ensures Show(Int(1)) != Show(Flag(true)) && PyEq(Int(1), Flag(true))
  {
    assert |Decimal(1)| == 1 && |"True"| == 4;
  }

  lemma SampleKey(id: Value)
    ensures NetworkKey(SampleNetwork(id)) == [NetworkPart("a", "d", Str(BARE), id, Null)]
    ensures Candidates(NetworkKey(SampleNetwork(id))) == [SampleCandidate(id)]
  {
    SampleMac();
    hide NormalizeMac, Show, Colons;
    var net := SampleNetwork(id);
    assert net[1..] == [] && SampleDevices(id)[1..] == [];
    assert SiteParts("a", SampleDevices(id)) == [NetworkPart("a", "d", Str(BARE), id, Null)];
    var part := NetworkPart("a", "d", Str(BARE), id, Null);
    assert CandidateOf(part) == Some(SampleCandidate(id));
    assert [part][1..] == [];
  }

  lemma EmptySiteParts(site: string)
    ensures SiteParts(site, []) == []
  {
  }

  lemma NoProtectKey()
    ensures Candidates(ProtectKey(map[])) == []
  {
    NoCollections(COLLECTIONS);
  }

  lemma {:induction false} NoCollections(collections: seq<Collection>)
    ensures CollectionKey(map[], collections) == []
  {
    if collections != [] {
      NoCollections(collections[1..]);
    }
  }
}

/** Correlating InnerSpace records with Network and Protect devices by MAC address. */
module InnerSpace {
  import opened Text

  // ---------- Payload values ----------

  /** A payload value; `Null` is also a missing key. */
  datatype Value = Null | Str(text: string) | Flag(on: bool) | Int(n: int)

  predicate Truthy(v: Value) {
    match v
    case Null => false
    case Str(text) => text != ""
    case Flag(on) => on
    case Int(n) => n != 0
  }

  /** Python's `a or b`. */
  function Or(a: Value, b: Value): Value {
    if Truthy(a) then a else b
  }

  function AsInt(v: Value): Option<int> {
    match v
    case Flag(on) => Some(if on then 1 else 0)
    case Int(n) => Some(n)
    case _ => None
  }

  /** Python's `==`: True equals 1 and False equals 0. */
  predicate PyEq(a: Value, b: Value) {
    a == b || (AsInt(a).Some? && AsInt(a) == AsInt(b))
  }

  /** Python's `str`. */
  function Show(v: Value): string {
    match v
    case Null => "None"
    case Str(text) => text
    case Flag(on) => if on then "True" else "False"
    case Int(n) => if n < 0 then "-" + Decimal(-n) else Decimal(n)
  }

  /** Python's falsy values, and how numbers and booleans are rendered. */
  lemma FalsyAndShown(v: Value, n: nat)
    ensures !Truthy(v) <==> v in {Null, Str(""), Flag(false), Int(0)}
    ensures Show(Int(n)) == Decimal(n) && (n > 0 ==> Show(Int(0 - n)) == "-" + Decimal(n))
    ensures v == Flag(true) ==> Show(v) == "True"
    ensures v == Flag(false) ==> Show(v) == "False"
  {
  }

  // ---------- MAC addresses ----------

  predicate IsHex(c: char) {
    IsDigit(c) || 'a' <= c <= 'f'
  }

  function Without(s: string, drop: set<char>): (r: string)
    ensures |r| <= |s| && forall c :: c in r ==> c in s && c !in drop
  {
    if s == "" then "" else (if s[0] in drop then "" else [s[0]]) + Without(s[1..], drop)
  }

  /** `_normalize_innerspace_mac`: colons between pairs, whatever the separators were. */
  function NormalizeMac(v: Value): (mac: Option<string>)
    ensures mac.Some? ==> mac.value != ""
  {
    if !v.Str? then None
    else
      var cleaned := Without(Lower(Strip(v.text)), {'-', ':', '.'});
      if IsBare(cleaned) then Some(Colons(cleaned)) else None
  }

  lemma {:induction false} WithoutConcat(s: string, t: string, drop: set<char>)
    ensures Without(s + t, drop) == Without(s, drop) + Without(t, drop)
  {
    if s == "" {
      assert s + t == t;
    } else {
      assert (s + t)[1..] == s[1..] + t;
      WithoutConcat(s[1..], t, drop);
    }
  }

  lemma {:induction false} WithoutNothing(s: string, drop: set<char>)
    requires forall c :: c in s ==> c !in drop
    ensures Without(s, drop) == s
  {
    if s != "" {
      WithoutNothing(s[1..], drop);
    }
  }

  /** A colon between every two characters. */
  function Colons(bare: string): (r: string)
    ensures bare != "" ==> r != ""
    ensures forall c :: c in r ==> c in bare || c == ':'
  {
    if |bare| <= 2 then bare else bare[..2] + ":" + Colons(bare[2..])
  }

  predicate IsBare(text: string) {
    |text| == 12 && forall c :: c in text ==> IsHex(c)
  }

  lemma LowerHexText(text: string)
    requires forall c :: c in text ==> IsHex(c) || c == ':'
    ensures Lower(Strip(text)) == text
  {
    StripOfSpaceFree(text);
    assert forall i :: 0 <= i < |text| ==> text[i] in text;
  }

  lemma BareMac(text: string)
    requires IsBare(text)
    ensures NormalizeMac(Str(text)) == Some(Colons(text))
  {
    hide Strip, Lower, Without, Colons;
    LowerHexText(text);
    forall c | c in text ensures c !in {'-', ':', '.'} {
      assert IsHex(c);
    }
    WithoutNothing(text, {'-', ':', '.'});
  }

  /** A normalized address is its own normal form. */
  lemma NormalizedIsFixed(v: Value)
    ensures var m := NormalizeMac(v); m.Some? ==> NormalizeMac(Str(m.value)) == m
  {
    var m := NormalizeMac(v);
    if m.Some? {
      var bare := Without(Lower(Strip(v.text)), {'-', ':', '.'});
      hide Strip, NormalizeMac;
      ColonsFixed(bare);
    }
  }

  lemma ColonsFixed(bare: string)
    requires IsBare(bare)
    ensures NormalizeMac(Str(Colons(bare))) == Some(Colons(bare))
  {
    hide Colons, Strip, Without;
    LowerHexText(Colons(bare));
    DropColons(bare, {'-', ':', '.'});
  }

  lemma {:induction false} DropColons(bare: string, drop: set<char>)
    requires ':' in drop && forall c :: c in bare ==> c !in drop
    ensures Without(Colons(bare), drop) == bare
  {
    if |bare| <= 2 {
      WithoutNothing(bare, drop);
    } else {
      WithoutConcat(bare[..2] + ":", Colons(bare[2..]), drop);
      WithoutConcat(bare[..2], ":", drop);
      WithoutNothing(bare[..2], drop);
      DropColons(bare[2..], drop);
    }
  }

  // ---------- How addresses may be spelled ----------

  predicate IsAnyHex(c: char) {
    '0' <= c <= '9' || 'a' <= c <= 'f' || 'A' <= c <= 'F'
  }

  /** The hex digits of a text, in lower case. */
  function HexOf(text: string): string {
    if text == "" then ""
    else (if 'A' <= text[0] <= 'F' then [(text[0] as int + 32) as char] else if IsAnyHex(text[0]) then [text[0]] else "")
         + HexOf(text[1..])
  }

  predicate IsSeparator(c: char) {
    c == '-' || c == ':' || c == '.'
  }

  predicate AllHex(text: string) {
    forall c :: c in text ==> IsHex(c)
  }

  predicate AllSpelled(text: string) {
    forall c :: c in text ==> IsAnyHex(c) || IsSeparator(c)
  }

  /** Twelve hex digits of either case, with dashes, colons and dots anywhere. */
  predicate SpellsMac(text: string) {
    |HexOf(text)| == 12 && AllSpelled(text)
  }

  /** Whatever its case, separators and surrounding spaces, a spelled address normalizes to its digits in pairs. */
  lemma SpelledMacNormalizes(before: string, text: string, after: string)
    requires AllSpace(before) && SpellsMac(text) && AllSpace(after)
    ensures NormalizeMac(Str(before + text + after)) == Some(Colons(HexOf(text)))
  {
    assert Trimmed(text) by {
      assert text != "" ==> text[0] in text && text[|text| - 1] in text;
    }
    hide IsSpace, Strip, Colons;
    StripOfCore(before, text, after);
    DigitsLeft(text);
  }

  /** And nothing else does. */
  lemma NormalizesOnlySpelled(text: string)
    ensures NormalizeMac(Str(text)).Some? <==> SpellsMac(Strip(text))
    ensures NormalizeMac(Str(text)).Some? ==> NormalizeMac(Str(text)).value == Colons(HexOf(Strip(text)))
  {
    hide Strip, Colons;
    DigitsLeft(Strip(text));
  }

  lemma {:induction false} DigitsLeft(text: string)
    ensures var left := Without(Lower(text), {'-', ':', '.'});
      (AllHex(left) <==> AllSpelled(text)) && (AllHex(left) ==> left == HexOf(text))
  {
    hide AllHex, AllSpelled, LowerChar, Lower, Without, HexOf;
    if text == "" {
      NoDigits();
    } else {
      var first, rest := [text[0]], text[1..];
      DigitsLeft(rest);
      DigitLeft(text[0]);
      LowerConcat(text[0], rest);
      WithoutConcat([LowerChar(text[0])], Lower(rest), {'-', ':', '.'});
      assert text == first + rest;
      DigitsJoin(first, rest, Without([LowerChar(text[0])], {'-', ':', '.'}), Without(Lower(rest), {'-', ':', '.'}));
    }
  }

  lemma DigitsJoin(s: string, t: string, left: string, rest: string)
    requires (AllHex(left) <==> AllSpelled(s)) && (AllHex(left) ==> left == HexOf(s))
    requires (AllHex(rest) <==> AllSpelled(t)) && (AllHex(rest) ==> rest == HexOf(t))
    ensures (AllHex(left + rest) <==> AllSpelled(s + t)) && (AllHex(left + rest) ==> left + rest == HexOf(s + t))
  {
    hide AllHex, AllSpelled, HexOf;
    AllConcat(s, t);
    AllConcat(left, rest);
    HexOfConcat(s, t);
  }

  lemma NoDigits()
    ensures Without(Lower(""), {'-', ':', '.'}) == HexOf("") == "" && AllHex("") && AllSpelled("")
  {
  }

  lemma LowerConcat(c: char, rest: string)
    ensures Lower([c] + rest) == [LowerChar(c)] + Lower(rest)
  {
  }

  lemma AllConcat(s: string, t: string)
    ensures AllHex(s + t) <==> AllHex(s) && AllHex(t)
    ensures AllSpelled(s + t) <==> AllSpelled(s) && AllSpelled(t)
  {
    assert forall c :: c in s + t <==> c in s || c in t;
  }

  lemma {:induction false} HexOfConcat(s: string, t: string)
    ensures HexOf(s + t) == HexOf(s) + HexOf(t)
  {
    if s == "" {
      assert s + t == t;
    } else {
      assert (s + t)[1..] == s[1..] + t;
      HexOfConcat(s[1..], t);
    }
  }

  lemma DigitLeft(c: char)
    ensures var left := Without([LowerChar(c)], {'-', ':', '.'});
      && (AllHex(left) <==> AllSpelled([c])) && (AllHex(left) ==> left == HexOf([c]))
  {
    assert [LowerChar(c)][1..] == "" && [c][1..] == "";
    var left := Without([LowerChar(c)], {'-', ':', '.'});
    assert left == if LowerChar(c) in {'-', ':', '.'} then "" else [LowerChar(c)];
    assert AllSpelled([c]) <==> IsAnyHex(c) || IsSeparator(c) by {
      assert c in [c];
    }
    assert left != "" ==> left[0] in left;
  }

  /** Two spellings normalize alike exactly if they have the same digits up to case. */
  lemma SameDigits(s: string, t: string)
    requires NormalizeMac(Str(s)).Some? && NormalizeMac(Str(t)).Some?
    ensures NormalizeMac(Str(s)) == NormalizeMac(Str(t)) <==> HexOf(Strip(s)) == HexOf(Strip(t))
  {
    hide Strip, NormalizeMac, Colons;
    NormalizesOnlySpelled(s);
    NormalizesOnlySpelled(t);
    DropColons(HexOf(Strip(s)), {':'}) by { HexIsHex(Strip(s)); }
    DropColons(HexOf(Strip(t)), {':'}) by { HexIsHex(Strip(t)); }
  }

  lemma {:induction false} HexIsHex(text: string)
    ensures forall c :: c in HexOf(text) ==> IsHex(c)
  {
    if text != "" {
      HexIsHex(text[1..]);
    }
  }

  /** Colons stand after every two digits. */
  lemma {:induction false} ColonsAt(digits: string, i: nat)
    requires |digits| > 0 && |digits| % 2 == 0
    ensures |Colons(digits)| == |digits| / 2 * 3 - 1
    ensures i < |Colons(digits)| ==> Colons(digits)[i] == if i % 3 == 2 then ':' else digits[i / 3 * 2 + i % 3]
  {
    if |digits| > 2 {
      ColonsAt(digits[2..], if i < 3 then 0 else i - 3);
    }
  }

  // ---------- Devices ----------

  datatype Device = Device(macAddress: Value, macSnake: Value, mac: Value, id: Value, kind: Value, model: Value)

  /** A dictionary of devices in order; None stands for an entry that is no mapping. */
  type Devices = seq<(string, Option<Device>)>

  /** The Network devices by site, in order; None stands for a site that is no mapping. */
  type Network = seq<(string, Option<Devices>)>

  datatype Collection = Cameras | Lights | Sensors | Nvrs | Viewers | Chimes | Doorlocks | Viewports

  const COLLECTIONS := [Cameras, Lights, Sensors, Nvrs, Viewers, Chimes, Doorlocks, Viewports]

  /** The Protect collections that are mappings. */
  type Protect = map<Collection, Devices>

  datatype DeviceType = Reported(value: Value) | OfCollection(collection: Collection)

  datatype Candidate = Candidate(deviceId: string, siteId: Option<string>, deviceType: DeviceType, mac: string)

  /** What the correlation reads of one device; also one part of the memo key. */
  datatype Part =
    | NetworkPart(site: string, devId: string, mac: Value, id: Value, kind: Value)
    | ProtectPart(collection: Collection, devId: string, mac: Value, id: Value)

  function NetworkPartOf(site: string, devId: string, d: Device): Part {
    NetworkPart(site, devId, Or(d.macAddress, Or(d.macSnake, d.mac)), d.id, Or(d.kind, d.model))
  }

  function ProtectPartOf(collection: Collection, devId: string, d: Device): Part {
    ProtectPart(collection, devId, Or(d.mac, Or(d.macAddress, d.macSnake)), d.id)
  }

  function DeviceId(p: Part): string {
    if Truthy(p.id) then Show(p.id) else p.devId
  }

  /** The candidate a device makes, if its MAC is one. */
  function CandidateOf(p: Part): Option<Candidate> {
    var mac := NormalizeMac(p.mac);
    if mac.None? then None
    else match p
      case NetworkPart(site, _, _, _, kind) => Some(Candidate(DeviceId(p), Some(site), Reported(kind), mac.value))
      case ProtectPart(collection, _, _, _) => Some(Candidate(DeviceId(p), None, OfCollection(collection), mac.value))
  }

  /** `v` is the first of the values that is filled in, or the last if none is. */
  predicate FirstFilled(values: seq<Value>, v: Value) {
    exists i :: 0 <= i < |values| && values[i] == v && (Truthy(v) || i == |values| - 1)
                && forall j :: 0 <= j < i ==> !Truthy(values[j])
  }

  /** The device's own ID if it has one, else the key it is listed under. */
  predicate NamesDevice(text: string, id: Value, devId: string) {
    if Truthy(id) then text == Show(id) else text == devId
  }

  /** A Network device is a candidate under its first MAC spelling, with its site and its type, else its model. */
  lemma NetworkCandidate(site: string, devId: string, d: Device, c: Candidate)
    ensures CandidateOf(NetworkPartOf(site, devId, d)) == Some(c)
            <==> && (exists v :: FirstFilled([d.macAddress, d.macSnake, d.mac], v) && NormalizeMac(v) == Some(c.mac))
                 && NamesDevice(c.deviceId, d.id, devId) && c.siteId == Some(site)
                 && c.deviceType.Reported? && FirstFilled([d.kind, d.model], c.deviceType.value)
  {
    hide NormalizeMac, Truthy, Show;
    var macs, kinds := [d.macAddress, d.macSnake, d.mac], [d.kind, d.model];
    FilledOfThree(d.macAddress, d.macSnake, d.mac);
    FilledOfTwo(d.kind, d.model);
  }

  lemma FilledOfThree(a: Value, b: Value, c: Value)
    ensures forall v :: FirstFilled([a, b, c], v) <==> v == Or(a, Or(b, c))
  {
    hide Truthy;
    var values := [a, b, c];
    assert values[0] == a && values[1] == b && values[2] == c;
    forall v ensures FirstFilled(values, v) <==> v == Or(a, Or(b, c)) {
      var i := if Truthy(a) then 0 else if Truthy(b) then 1 else 2;
      assert values[i] == Or(a, Or(b, c));
    }
  }

  lemma FilledOfTwo(a: Value, b: Value)
    ensures forall v :: FirstFilled([a, b], v) <==> v == Or(a, b)
  {
    hide Truthy;
    var values := [a, b];
    forall v ensures FirstFilled(values, v) <==> v == Or(a, b) {
      var i := if Truthy(a) then 0 else 1;
      assert values[i] == Or(a, b);
    }
  }

  /** A Protect device is a candidate under its first MAC spelling, without a site, by its collection. */
  lemma ProtectCandidate(collection: Collection, devId: string, d: Device, c: Candidate)
    ensures CandidateOf(ProtectPartOf(collection, devId, d)) == Some(c)
            <==> && (exists v :: FirstFilled([d.mac, d.macAddress, d.macSnake], v) && NormalizeMac(v) == Some(c.mac))
                 && NamesDevice(c.deviceId, d.id, devId) && c.siteId == None
                 && c.deviceType == OfCollection(collection)
  {
    hide NormalizeMac, Truthy, Show;
    FilledOfThree(d.mac, d.macAddress, d.macSnake);
  }

  // ---------- The memo key ----------

  function SiteParts(site: string, devices: Devices): seq<Part> {
    if devices == [] then []
    else (if devices[0].1.Some? then [NetworkPartOf(site, devices[0].0, devices[0].1.value)] else []) + SiteParts(site, devices[1..])
  }

  function NetworkKey(net: Network): seq<Part> {
    if net == [] then []
    else (if net[0].1.Some? then SiteParts(net[0].0, net[0].1.value) else []) + NetworkKey(net[1..])
  }

  function CollectionParts(collection: Collection, devices: Devices): seq<Part> {
    if devices == [] then []
    else (if devices[0].1.Some? then [ProtectPartOf(collection, devices[0].0, devices[0].1.value)] else [])
         + CollectionParts(collection, devices[1..])
  }

  function CollectionKey(prot: Protect, collections: seq<Collection>): seq<Part> {
    if collections == [] then []
    else (if collections[0] in prot then CollectionParts(collections[0], prot[collections[0]]) else [])
         + CollectionKey(prot, collections[1..])
  }

  /** The Protect half of `innerspace_correlation_key`. */
  function ProtectKey(prot: Protect): seq<Part> {
    CollectionKey(prot, COLLECTIONS)
  }

  /** The sites that are mappings, empty ones included. */
  function SiteNames(net: Network): set<string> {
    set entry | entry in net && entry.1.Some? :: entry.0
  }

  // ---------- The plain scan ----------

  function Candidates(parts: seq<Part>): seq<Candidate> {
    if parts == [] then []
    else (if CandidateOf(parts[0]).Some? then [CandidateOf(parts[0]).value] else []) + Candidates(parts[1..])
  }

  function OfSite(parts: seq<Part>, site: string): seq<Part> {
    if parts == [] then []
    else (if parts[0].NetworkPart? && parts[0].site == site then [parts[0]] else []) + OfSite(parts[1..], site)
  }

  /** The devices a record may match: the record's own site if that is a known one, else all. */
  function Scope(net: Network, prot: Protect, site: Value): seq<Candidate> {
    Candidates(if Narrows(SiteNames(net), site) then OfSite(NetworkKey(net), site.text) else NetworkKey(net))
    + Candidates(ProtectKey(prot))
  }

  /** The device at `i` of the site at `k` makes this candidate. */
  ghost predicate FromNetwork(net: Network, k: int, i: int, c: Candidate) {
    && 0 <= k < |net| && net[k].1.Some? && 0 <= i < |net[k].1.value| && net[k].1.value[i].1.Some?
    && CandidateOf(NetworkPartOf(net[k].0, net[k].1.value[i].0, net[k].1.value[i].1.value)) == Some(c)
  }

  ghost predicate FromProtect(prot: Protect, collection: Collection, i: int, c: Candidate) {
    && collection in prot && 0 <= i < |prot[collection]| && prot[collection][i].1.Some?
    && CandidateOf(ProtectPartOf(collection, prot[collection][i].0, prot[collection][i].1.value)) == Some(c)
  }

  /** The record names one of the listed sites. */
  ghost predicate OnKnownSite(net: Network, site: Value) {
    site.Str? && site.text != "" && exists k :: 0 <= k < |net| && net[k].1.Some? && net[k].0 == site.text
  }

  ghost predicate InScopeOf(net: Network, prot: Protect, site: Value, c: Candidate) {
    || (exists k, i :: FromNetwork(net, k, i, c) && (OnKnownSite(net, site) ==> net[k].0 == site.text))
    || (exists collection, i :: FromProtect(prot, collection, i, c))
  }

  /** In scope are the Network devices of the record's site if it is a listed one, else of all sites, and all Protect devices. */
  lemma ScopeHolds(net: Network, prot: Protect, site: Value, c: Candidate)
    ensures c in Scope(net, prot, site) <==> InScopeOf(net, prot, site, c)
  {
    hide CandidateOf, NetworkPartOf, ProtectPartOf, Candidates, NetworkKey, ProtectKey, OfSite;
    assert OnKnownSite(net, site) <==> Narrows(SiteNames(net), site);
    var parts := if Narrows(SiteNames(net), site) then OfSite(NetworkKey(net), site.text) else NetworkKey(net);
    CandidatesHold(parts, c);
    CandidatesHold(ProtectKey(prot), c);
    forall p ensures p in parts <==> PartIn(net, p) && (OnKnownSite(net, site) ==> p.NetworkPart? && p.site == site.text) {
      NetworkKeyHolds(net, p);
      OfSiteHolds(NetworkKey(net), if site.Str? then site.text else "", p);
    }
    forall p {
      ProtectKeyHolds(prot, p);
    }
    NetworkHalf(net, site, c);
    ProtectHalf(prot, c);
  }

  ghost predicate PartIn(net: Network, p: Part) {
    exists k, i :: PartAt(net, k, i, p)
  }

  ghost predicate PartAt(net: Network, k: int, i: int, p: Part) {
    && 0 <= k < |net| && net[k].1.Some? && 0 <= i < |net[k].1.value| && net[k].1.value[i].1.Some?
    && p == NetworkPartOf(net[k].0, net[k].1.value[i].0, net[k].1.value[i].1.value)
  }

  ghost predicate ProtectPartIn(prot: Protect, p: Part) {
    exists collection, i :: ProtectPartAt(prot, collection, i, p)
  }

  ghost predicate ProtectPartAt(prot: Protect, collection: Collection, i: int, p: Part) {
    && collection in prot && 0 <= i < |prot[collection]| && prot[collection][i].1.Some?
    && p == ProtectPartOf(collection, prot[collection][i].0, prot[collection][i].1.value)
  }

  lemma NetworkHalf(net: Network, site: Value, c: Candidate)
    ensures (exists p :: PartIn(net, p) && (OnKnownSite(net, site) ==> p.NetworkPart? && p.site == site.text) && CandidateOf(p) == Some(c))
            <==> exists k, i :: FromNetwork(net, k, i, c) && (OnKnownSite(net, site) ==> net[k].0 == site.text)
  {
    hide CandidateOf;
    if p :| PartIn(net, p) && (OnKnownSite(net, site) ==> p.NetworkPart? && p.site == site.text) && CandidateOf(p) == Some(c) {
      var k, i :| PartAt(net, k, i, p);
      assert FromNetwork(net, k, i, c);
    }
    if k, i :| FromNetwork(net, k, i, c) && (OnKnownSite(net, site) ==> net[k].0 == site.text) {
      var p := NetworkPartOf(net[k].0, net[k].1.value[i].0, net[k].1.value[i].1.value);
      assert PartAt(net, k, i, p);
    }
  }

  lemma ProtectHalf(prot: Protect, c: Candidate)
    ensures (exists p :: ProtectPartIn(prot, p) && CandidateOf(p) == Some(c)) <==> exists collection, i :: FromProtect(prot, collection, i, c)
  {
    hide CandidateOf;
    if p :| ProtectPartIn(prot, p) && CandidateOf(p) == Some(c) {
      var collection, i :| ProtectPartAt(prot, collection, i, p);
      assert FromProtect(prot, collection, i, c);
    }
    if collection, i :| FromProtect(prot, collection, i, c) {
      assert ProtectPartAt(prot, collection, i, ProtectPartOf(collection, prot[collection][i].0, prot[collection][i].1.value));
    }
  }

  lemma {:induction false} CandidatesHold(parts: seq<Part>, c: Candidate)
    ensures c in Candidates(parts) <==> exists p :: p in parts && CandidateOf(p) == Some(c)
  {
    hide CandidateOf;
    if parts != [] {
      CandidatesHold(parts[1..], c);
      assert forall p :: p in parts <==> p == parts[0] || p in parts[1..];
    }
  }

  lemma {:induction false} OfSiteHolds(parts: seq<Part>, site: string, p: Part)
    ensures p in OfSite(parts, site) <==> p in parts && p.NetworkPart? && p.site == site
  {
    if parts != [] {
      OfSiteHolds(parts[1..], site, p);
      assert p in parts <==> p == parts[0] || p in parts[1..];
    }
  }

  lemma {:induction false} SitePartsHold(site: string, devices: Devices, p: Part)
    ensures p in SiteParts(site, devices)
            <==> exists i :: 0 <= i < |devices| && devices[i].1.Some? && p == NetworkPartOf(site, devices[i].0, devices[i].1.value)
  {
    hide NetworkPartOf;
    if devices != [] {
      var rest := devices[1..];
      SitePartsHold(site, rest, p);
      if i :| 0 <= i < |rest| && rest[i].1.Some? && p == NetworkPartOf(site, rest[i].0, rest[i].1.value) {
        assert devices[i + 1] == rest[i];
      }
      if i :| 0 <= i < |devices| && devices[i].1.Some? && p == NetworkPartOf(site, devices[i].0, devices[i].1.value) {
        assert i > 0 ==> rest[i - 1] == devices[i];
      }
    }
  }

  lemma {:induction false} NetworkKeyHolds(net: Network, p: Part)
    ensures p in NetworkKey(net) <==> PartIn(net, p)
  {
    hide SiteParts, NetworkPartOf;
    if net != [] {
      var rest := net[1..];
      NetworkKeyHolds(rest, p);
      if net[0].1.Some? {
        SitePartsHold(net[0].0, net[0].1.value, p);
      }
      if k, i :| PartAt(rest, k, i, p) {
        assert PartAt(net, k + 1, i, p);
      }
      if k, i :| PartAt(net, k, i, p) {
        if k > 0 {
          assert PartAt(rest, k - 1, i, p);
        }
      }
      if net[0].1.Some? && p in SiteParts(net[0].0, net[0].1.value) {
        var i :| 0 <= i < |net[0].1.value| && net[0].1.value[i].1.Some?
                 && p == NetworkPartOf(net[0].0, net[0].1.value[i].0, net[0].1.value[i].1.value);
        assert PartAt(net, 0, i, p);
      }
    }
  }

  lemma {:induction false} CollectionPartsHold(collection: Collection, devices: Devices, p: Part)
    ensures p in CollectionParts(collection, devices)
            <==> exists i :: 0 <= i < |devices| && devices[i].1.Some? && p == ProtectPartOf(collection, devices[i].0, devices[i].1.value)
  {
    hide ProtectPartOf;
    if devices != [] {
      var rest := devices[1..];
      CollectionPartsHold(collection, rest, p);
      if i :| 0 <= i < |rest| && rest[i].1.Some? && p == ProtectPartOf(collection, rest[i].0, rest[i].1.value) {
        assert devices[i + 1] == rest[i];
      }
      if i :| 0 <= i < |devices| && devices[i].1.Some? && p == ProtectPartOf(collection, devices[i].0, devices[i].1.value) {
        assert i > 0 ==> rest[i - 1] == devices[i];
      }
    }
  }

  lemma {:induction false} CollectionKeyHolds(prot: Protect, collections: seq<Collection>, p: Part)
    ensures p in CollectionKey(prot, collections) <==> exists collection, i :: collection in collections && ProtectPartAt(prot, collection, i, p)
  {
    hide CollectionParts, ProtectPartOf;
    if collections != [] {
      CollectionKeyHolds(prot, collections[1..], p);
      if collections[0] in prot {
        CollectionPartsHold(collections[0], prot[collections[0]], p);
      }
      assert forall collection :: collection in collections <==> collection == collections[0] || collection in collections[1..];
      if collections[0] in prot && p in CollectionParts(collections[0], prot[collections[0]]) {
        var devices := prot[collections[0]];
        var i :| 0 <= i < |devices| && devices[i].1.Some? && p == ProtectPartOf(collections[0], devices[i].0, devices[i].1.value);
        assert ProtectPartAt(prot, collections[0], i, p);
      }
    }
  }

  lemma ProtectKeyHolds(prot: Protect, p: Part)
    ensures p in ProtectKey(prot) <==> ProtectPartIn(prot, p)
  {
    hide CollectionKey, ProtectPartAt;
    CollectionKeyHolds(prot, COLLECTIONS, p);
    forall collection: Collection ensures collection in COLLECTIONS {
      EveryCollection(collection);
    }
  }

  lemma EveryCollection(collection: Collection)
    ensures collection in COLLECTIONS
  {
    assert COLLECTIONS[0] == Cameras && COLLECTIONS[1] == Lights && COLLECTIONS[2] == Sensors && COLLECTIONS[3] == Nvrs;
    assert COLLECTIONS[4] == Viewers && COLLECTIONS[5] == Chimes && COLLECTIONS[6] == Doorlocks && COLLECTIONS[7] == Viewports;
  }

  predicate Narrows(sites: set<string>, site: Value) {
    site.Str? && site.text != "" && site.text in sites
  }

  function WithMac(candidates: seq<Candidate>, mac: string): (r: seq<Candidate>)
    ensures forall c :: c in r <==> c in candidates && c.mac == mac
  {
    if candidates == [] then []
    else (if candidates[0].mac == mac then [candidates[0]] else []) + WithMac(candidates[1..], mac)
  }

  lemma {:induction false} WithMacConcat(cs: seq<Candidate>, ds: seq<Candidate>, mac: string)
    ensures WithMac(cs + ds, mac) == WithMac(cs, mac) + WithMac(ds, mac)
  {
    if cs == [] {
      assert cs + ds == ds;
    } else {
      assert (cs + ds)[1..] == cs[1..] + ds;
      WithMacConcat(cs[1..], ds, mac);
    }
  }

  /** What a record with this MAC and site is matched to. */
  function Match(net: Network, prot: Protect, mac: string, site: Value): Option<Candidate> {
    Sole(WithMac(Scope(net, prot, site), mac))
  }

  function Sole(candidates: seq<Candidate>): Option<Candidate> {
    if |candidates| == 1 then Some(candidates[0]) else None
  }

  /** `s[i]` is the only element with this MAC. */
  ghost predicate OnlyOne(s: seq<Candidate>, mac: string, i: int) {
    && 0 <= i < |s| && s[i].mac == mac
    && forall j :: 0 <= j < |s| && s[j].mac == mac ==> j == i
  }

  /** A record is matched to a device exactly when it is the only one in scope with that MAC. */
  lemma MatchIsUnambiguous(net: Network, prot: Protect, mac: string, site: Value, c: Candidate)
    ensures Match(net, prot, mac, site) == Some(c)
            <==> exists i :: OnlyOne(Scope(net, prot, site), mac, i) && Scope(net, prot, site)[i] == c
  {
    var s := Scope(net, prot, site);
    if Sole(WithMac(s, mac)) == Some(c) {
      var i := SoleIsOnly(s, mac);
    }
    if i :| OnlyOne(s, mac, i) && s[i] == c {
      OnlyIsSole(s, mac, i);
    }
  }

  lemma {:induction false} SoleIsOnly(s: seq<Candidate>, mac: string) returns (i: nat)
    requires |WithMac(s, mac)| == 1
    ensures OnlyOne(s, mac, i) && WithMac(s, mac) == [s[i]]
  {
    var rest := s[1..];
    assert forall j :: 0 < j < |s| ==> s[j] == rest[j - 1];
    if s[0].mac == mac {
      assert WithMac(rest, mac) == [];
      forall j | 0 < j < |s| ensures s[j].mac != mac {
        assert rest[j - 1] in rest && rest[j - 1] !in WithMac(rest, mac);
      }
      return 0;
    }
    i := SoleIsOnly(rest, mac);
    i := i + 1;
  }

  lemma {:induction false} OnlyIsSole(s: seq<Candidate>, mac: string, i: int)
    requires OnlyOne(s, mac, i)
    ensures WithMac(s, mac) == [s[i]]
  {
    var rest := s[1..];
    assert forall j :: 0 < j < |s| ==> s[j] == rest[j - 1];
    if i == 0 {
      NoneWithMac(rest, mac);
    } else {
      OnlyIsSole(rest, mac, i - 1);
    }
  }

  lemma {:induction false} NoneWithMac(s: seq<Candidate>, mac: string)
    requires forall j :: 0 <= j < |s| ==> s[j].mac != mac
    ensures WithMac(s, mac) == []
  {
    if s != [] {
      NoneWithMac(s[1..], mac);
    }
  }
}

/** The directed broadcast address for waking a client, from the console's network list. */
module DirectedBroadcast {
  import opened Text

  const ADDRESSES: nat := 0x1_0000_0000
  const MAX_BROADCAST_PREFIXLEN: nat := 30

  function Pow2(n: nat): (p: nat)
    ensures p > 0
  {
    if n == 0 then 1 else 2 * Pow2(n - 1)
  }

  // ---------- CIDR blocks ----------

  datatype Interface = Interface(address: nat, prefix: nat)

  /** An IPv4 interface: an address and the prefix length of its network. */
  type Cidr = i: Interface | i.address < ADDRESSES && i.prefix <= 32 witness Interface(0, 0)

  /** How many addresses the network has. */
  function Size(c: Cidr): (s: nat)
    ensures s > 0
  {
    Pow2(32 - c.prefix)
  }

  /** The network address: the host bits cleared. */
  function Base(c: Cidr): (base: nat)
    ensures base <= c.address < base + Size(c)
  {
    Multiple(c.address, Size(c));
    c.address / Size(c) * Size(c)
  }

  lemma Multiple(x: nat, s: nat)
    requires s > 0
    ensures 0 <= x / s * s <= x < x / s * s + s
  {
  }

  /** The broadcast address: the host bits set. */
  function Top(c: Cidr): nat {
    Base(c) + Size(c) - 1
  }

  predicate Contains(c: Cidr, x: nat) {
    Base(c) <= x <= Top(c)
  }

  ghost predicate Within(inner: Cidr, outer: Cidr) {
    forall x: nat :: Contains(inner, x) ==> Contains(outer, x)
  }

  lemma {:induction false} Pow2Divides(m: nat, n: nat) returns (q: nat)
    requires m <= n
    ensures q > 0 && Pow2(n) == q * Pow2(m)
  {
    if m == n {
      q := 1;
    } else {
      q := Pow2Divides(m, n - 1);
      q := 2 * q;
    }
  }

  /** Two aligned ranges, one size dividing the other, that meet: the small one lies inside. */
  lemma AlignedRanges(ka: nat, q: nat, kb: nat, s: nat, x: nat)
    requires s > 0 && q > 0
    requires ka * (q * s) <= x < ka * (q * s) + q * s
    requires kb * s <= x < kb * s + s
    ensures ka * (q * s) <= kb * s && kb * s + s <= ka * (q * s) + q * s
  {
    assert ka * (q * s) == (ka * q) * s;
    MultiplesOrdered(ka * q, kb + 1, s);
    MultiplesOrdered(kb, ka * q + q, s);
    MultiplesKeepOrder(ka * q, kb, s);
    MultiplesKeepOrder(kb + 1, ka * q + q, s);
  }

  lemma MultiplesOrdered(a: int, b: int, s: int)
    requires s > 0 && a * s < b * s
    ensures a < b
  {
  }

  lemma MultiplesKeepOrder(a: int, b: int, s: int)
    requires s > 0 && a <= b
    ensures a * s <= b * s
  {
  }

  /** Blocks that share an address are nested, the longer prefix inside. */
  lemma NestedIfMeeting(a: Cidr, b: Cidr, x: nat)
    requires a.prefix <= b.prefix && Contains(a, x) && Contains(b, x)
    ensures Within(b, a)
  {
    hide Size, Base;
    RangeInside(a, b, x);
  }

  lemma RangeInside(a: Cidr, b: Cidr, x: nat)
    requires a.prefix <= b.prefix && Contains(a, x) && Contains(b, x)
    ensures Base(a) <= Base(b) && Base(b) + Size(b) <= Base(a) + Size(a)
  {
    hide Size, Base;
    var q := SizeDivides(a, b);
    var ka := Aligned(a);
    var kb := Aligned(b);
    AlignedRanges(ka, q, kb, Size(b), x);
  }

  lemma SizeDivides(a: Cidr, b: Cidr) returns (q: nat)
    requires a.prefix <= b.prefix
    ensures q > 0 && Size(a) == q * Size(b)
  {
    q := Pow2Divides(32 - b.prefix, 32 - a.prefix);
  }

  lemma Aligned(c: Cidr) returns (k: nat)
    ensures Base(c) == k * Size(c)
  {
    hide Size;
    k := c.address / Size(c);
  }

  /** A block holds exactly the addresses that agree with its own in the leading bits, as many as its prefix says. */
  lemma ContainsSamePrefix(c: Cidr, x: nat)
    ensures Contains(c, x) <==> x / Size(c) == c.address / Size(c)
    ensures Size(c) * Pow2(c.prefix) == 0x1_0000_0000
  {
    hide Pow2, Size;
    Pow2Sum(32 - c.prefix, c.prefix);
    AllAddresses();
    SizeIs(c);
    Multiple(x, Size(c));
    if Contains(c, x) {
      QuotientIs(x, c.address / Size(c), Size(c));
    }
  }

  lemma SizeIs(c: Cidr)
    ensures Size(c) == Pow2(32 - c.prefix)
  {
    hide Pow2;
  }

  lemma QuotientIs(x: nat, k: nat, s: nat)
    requires s > 0 && k * s <= x < k * s + s
    ensures x / s == k
  {
    Multiple(x, s);
    MultiplesOrdered(k, x / s + 1, s);
    MultiplesOrdered(x / s, k + 1, s);
  }

  /** Any two blocks are nested or disjoint. */
  lemma NestedOrDisjoint(a: Cidr, b: Cidr)
    ensures Within(a, b) || Within(b, a) || forall x: nat :: !(Contains(a, x) && Contains(b, x))
  {
    if x: nat :| Contains(a, x) && Contains(b, x) {
      if a.prefix <= b.prefix {
        NestedIfMeeting(a, b, x);
      } else {
        NestedIfMeeting(b, a, x);
      }
    }
  }

  /** The broadcast address is the highest of the network, a 32-bit address, and not the network's own. */
  lemma TopIsHighest(c: Cidr)
    requires c.prefix <= MAX_BROADCAST_PREFIXLEN
    ensures Contains(c, c.address) && Contains(c, Top(c)) && forall x: nat :: Contains(c, x) ==> x <= Top(c)
    ensures Base(c) < Top(c) < ADDRESSES
  {
    assert Size(c) == 2 * Pow2(31 - c.prefix);
    assert Base(c) + Size(c) <= ADDRESSES by {
      BlockFits(c);
    }
  }

  lemma BlockFits(c: Cidr)
    ensures Base(c) + Size(c) <= ADDRESSES
  {
    hide Pow2;
    var q := Pow2Divides(32 - c.prefix, 32);
    AllAddresses();
    Multiple(c.address, Size(c));
    BlockBelow(c.address / Size(c), q, Size(c), c.address);
  }

  lemma AllAddresses()
    ensures Pow2(32) == ADDRESSES
  {
    Pow2Sum(4, 4);
    Pow2Sum(8, 8);
    Pow2Sum(16, 16);
    assert Pow2(2) == 4;
  }

  lemma {:induction false} Pow2Sum(m: nat, n: nat)
    ensures Pow2(m + n) == Pow2(m) * Pow2(n)
  {
    if m > 0 {
      Pow2Sum(m - 1, n);
    }
  }

  lemma BlockBelow(k: nat, q: nat, s: nat, x: nat)
    requires s > 0 && k * s <= x < q * s
    ensures k * s + s <= q * s
  {
    MultiplesOrdered(k, q, s);
    MultiplesKeepOrder(k + 1, q, s);
  }

  // ---------- Networks ----------

  datatype Purpose = Corporate | Guest | OtherPurpose

  /** A network as listed; `subnet` is None unless it parses as an IPv4 interface. */
  datatype Network = Network(id: Option<string>, purpose: Purpose, disabled: bool, subnet: Option<Cidr>)

  datatype Candidate = Candidate(id: Option<string>, net: Cidr)

  predicate Usable(n: Network) {
    && n.purpose in {Corporate, Guest} && !n.disabled
    && n.subnet.Some? && n.subnet.value.prefix <= MAX_BROADCAST_PREFIXLEN
  }

  /** The usable networks, in listed order. */
  function UsableOf(networks: seq<Network>): (r: seq<Candidate>)
    ensures forall c :: c in r <==> exists n :: n in networks && Usable(n) && c == Candidate(n.id, n.subnet.value)
  {
    if networks == [] then [] else Offered(networks[0]) + UsableOf(networks[1..])
  }

  function Offered(n: Network): seq<Candidate> {
    if Usable(n) then [Candidate(n.id, n.subnet.value)] else []
  }

  /** Offered are the enabled corporate and guest networks with an IPv4 subnet of at least four addresses. */
  lemma OffersUsable(networks: seq<Network>, c: Candidate)
    ensures c in UsableOf(networks) <==>
              exists n :: n in networks && n.purpose != OtherPurpose && !n.disabled
                          && n.id == c.id && n.subnet == Some(c.net) && c.net.prefix <= 30
  {
    if n :| n in networks && n.purpose != OtherPurpose && !n.disabled && n.id == c.id && n.subnet == Some(c.net) && c.net.prefix <= 30 {
      assert Usable(n) && c == Candidate(n.id, n.subnet.value);
    }
  }

  lemma {:induction false} UsableAppend(networks: seq<Network>, n: Network)
    ensures UsableOf(networks + [n]) == UsableOf(networks) + Offered(n)
  {
    hide Offered;
    if networks == [] {
      assert networks + [n] == [n] && UsableOf([n][1..]) == [];
    } else {
      var head, rest := Offered(networks[0]), UsableOf(networks[1..]);
      assert (networks + [n])[1..] == networks[1..] + [n];
      UsableAppend(networks[1..], n);
      assert head + (rest + Offered(n)) == head + rest + Offered(n);
    }
  }

  /** The client's last address: none given, not an IPv4 address, or one. */
  datatype ClientIp = NoIp | BadIp | Ip(address: nat)

  /** `c[i]` is the first usable network with this ID. */
  ghost predicate FirstWithId(c: seq<Candidate>, id: string, i: int) {
    0 <= i < |c| && c[i].id == Some(id) && forall j :: 0 <= j < i ==> c[j].id != Some(id)
  }

  ghost predicate HasId(c: seq<Candidate>, id: Option<string>) {
    id.Some? && id.value != "" && exists i :: 0 <= i < |c| && c[i].id == id
  }

  /** `c[i]` is the only usable network holding the address. */
  ghost predicate OnlyHolder(c: seq<Candidate>, x: nat, i: int) {
    0 <= i < |c| && Contains(c[i].net, x)
    && forall j :: 0 <= j < |c| && Contains(c[j].net, x) ==> j == i
  }

  /**
   * `derive_directed_broadcast`. A known network ID decides; otherwise the address must
   * lie in exactly one usable network.
   */
  method DeriveDirectedBroadcast(networks: seq<Network>, ip: ClientIp, networkId: Option<string>) returns (answer: Option<nat>)
    ensures var c := UsableOf(networks);
      HasId(c, networkId) ==>
        exists i :: FirstWithId(c, networkId.value, i) && answer == Some(Top(c[i].net))
    ensures var c := UsableOf(networks);
      !HasId(c, networkId) ==>
        forall a :: answer == Some(a) <==> ip.Ip? && exists i :: OnlyHolder(c, ip.address, i) && Top(c[i].net) == a
  {
    hide Base, Size, Contains, UsableOf;
    var candidates: seq<Candidate> := [];
    NoneUsable(networks);
    for i := 0 to |networks|
      invariant candidates == UsableOf(networks[..i])
    {
      UsableAppend(networks[..i], networks[i]);
      assert networks[..i] + [networks[i]] == networks[..i + 1];
      if Usable(networks[i]) {
        candidates := candidates + [Candidate(networks[i].id, networks[i].subnet.value)];
      }
    }
    assert networks[..|networks|] == networks;
    if networkId.Some? && networkId.value != "" {
      for i := 0 to |candidates|
        invariant forall j :: 0 <= j < i ==> candidates[j].id != networkId
      {
        if candidates[i].id == networkId {
          assert FirstWithId(candidates, networkId.value, i);
          return Some(Top(candidates[i].net));
        }
      }
    }
    if !ip.Ip? {
      return None;
    }
    var matches: seq<nat> := [];
    for i := 0 to |candidates|
      invariant forall m :: m in matches ==> m < i && Contains(candidates[m].net, ip.address)
      invariant forall j :: 0 <= j < i && Contains(candidates[j].net, ip.address) ==> j in matches
      invariant forall a, b :: 0 <= a < b < |matches| ==> matches[a] != matches[b]
    {
      if Contains(candidates[i].net, ip.address) {
        matches := matches + [i];
      }
    }
    if |matches| == 1 {
      assert matches == [matches[0]] && matches[0] in matches;
      assert OnlyHolder(candidates, ip.address, matches[0]);
      return Some(Top(candidates[matches[0]].net));
    }
    if |matches| > 1 {
      assert matches[0] in matches && matches[1] in matches;
    }
    return None;
  }

  lemma NoneUsable(networks: seq<Network>)
    ensures UsableOf(networks[..0]) == []
  {
  }

  /** Two usable networks hold the address, one inside the other or equal to it. */
  ghost predicate Ambiguous(c: seq<Candidate>, x: nat) {
    exists i, j :: 0 <= i < |c| && 0 <= j < |c| && i != j
                   && Contains(c[i].net, x) && Contains(c[j].net, x) && Within(c[i].net, c[j].net)
  }

  /** No answer for a valid address: it lies in no usable network, or in nested ones. */
  lemma NoAnswerMeansNoneOrNested(c: seq<Candidate>, x: nat)
    ensures (forall i :: !OnlyHolder(c, x, i))
            <==> (forall i :: 0 <= i < |c| ==> !Contains(c[i].net, x)) || Ambiguous(c, x)
  {
    hide Contains;
    if i :| 0 <= i < |c| && Contains(c[i].net, x) {
      if !OnlyHolder(c, x, i) {
        var j :| 0 <= j < |c| && Contains(c[j].net, x) && j != i;
        NestedOrDisjoint(c[i].net, c[j].net);
      }
    }
  }
}

/** Replacing MAC addresses in a report by placeholders that are stable within it. */
module MacPseudonyms {
  import opened Text

  // ---------- What a MAC address looks like ----------

  predicate IsHex(c: char) {
    IsDigit(c) || 'a' <= c <= 'f' || 'A' <= c <= 'F'
  }

  predicate IsSeparator(c: char) {
    c == ':' || c == '-'
  }

  /** Word characters in Latin-1; other code points count as word characters. */
  predicate IsWord(c: char) {
    IsDigit(c) || 'a' <= c <= 'z' || 'A' <= c <= 'Z' || c == '_'
    || c in {'\U{AA}', '\U{B2}', '\U{B3}', '\U{B5}', '\U{B9}', '\U{BA}', '\U{BC}', '\U{BD}', '\U{BE}'}
    || (c >= '\U{C0}' && c != '\U{D7}' && c != '\U{F7}')
  }

  const MAC_LENGTH := 17

  /** Six pairs of hex digits, separated by `:` or `-`. */
  predicate IsPunctuated(s: string) {
    |s| == MAC_LENGTH && forall i :: 0 <= i < MAC_LENGTH ==> if i % 3 == 2 then IsSeparator(s[i]) else IsHex(s[i])
  }

  /** A whole value that is a MAC: punctuated, or twelve hex digits. */
  predicate IsMac(s: string) {
    IsPunctuated(s) || (|s| == 12 && forall i :: 0 <= i < 12 ==> IsHex(s[i]))
  }

  /** A punctuated MAC at `i`, bounded by non-word characters; `before` is the character ahead of `s`. */
  predicate MacAt(before: bool, s: string, i: nat) {
    && i + MAC_LENGTH <= |s| && IsPunctuated(s[i..i + MAC_LENGTH])
    && (if i == 0 then !before else !IsWord(s[i - 1]))
    && (i + MAC_LENGTH < |s| ==> !IsWord(s[i + MAC_LENGTH]))
  }

  /** The string names no MAC, neither inside nor as a whole. */
  ghost predicate Clean(s: string) {
    !IsMac(s) && forall i: nat :: !MacAt(false, s, i)
  }

  // ---------- Placeholders ----------

  /** Placeholders handed out, by normalized address. */
  type Seen = map<string, string>

  function Label(n: nat): string {
    "**REDACTED-MAC-" + Decimal(n) + "**"
  }

  function Bare(s: string): string {
    if s == "" then "" else (if IsSeparator(s[0]) then "" else [s[0]]) + Bare(s[1..])
  }

  /** Real addresses lose case and punctuation; anything else keeps its own value. */
  function KeyOf(mac: string): string {
    if IsMac(Lower(mac)) then Bare(Lower(mac)) else "raw:" + Lower(mac)
  }

  /** `_mac_placeholder` */
  function Placeholder(mac: string, seen: Seen): (string, Seen) {
    var key := KeyOf(mac);
    if key in seen then (seen[key], seen)
    else (Label(|seen| + 1), seen[key := Label(|seen| + 1)])
  }

  /** Labels are numbered densely from 1, and no two addresses share one. */
  ghost predicate Dense(seen: Seen) {
    && (forall key :: key in seen ==> exists n :: Numbered(seen, key, n))
    && (forall n :: 1 <= n <= |seen| ==> exists key :: key in seen && seen[key] == Label(n))
    && (forall a, b :: a in seen && b in seen && seen[a] == seen[b] ==> a == b)
  }

  ghost predicate Numbered(seen: Seen, key: string, n: int)
    requires key in seen
  {
    1 <= n <= |seen| && seen[key] == Label(n)
  }

  /** Everything handed out stays as it is. */
  ghost predicate Grows(seen: Seen, seen': Seen) {
    forall key :: key in seen ==> key in seen' && seen'[key] == seen[key]
  }

  lemma LabelInjective(m: nat, n: nat)
    requires Label(m) == Label(n)
    ensures m == n
  {
    var head := |"**REDACTED-MAC-"|;
    assert Label(m)[head..|Label(m)| - 2] == Decimal(m) && Label(n)[head..|Label(n)| - 2] == Decimal(n);
    DecimalInjective(m, n);
  }

  lemma PlaceholderDense(mac: string, seen: Seen)
    requires Dense(seen)
    ensures var (name, seen') := Placeholder(mac, seen);
      && Dense(seen') && Grows(seen, seen')
      && KeyOf(mac) in seen' && seen'[KeyOf(mac)] == name && exists n: nat :: name == Label(n)
    ensures KeyOf(mac) !in seen ==> Placeholder(mac, seen).0 == "**REDACTED-MAC-" + Decimal(|seen| + 1) + "**"
  {
    hide KeyOf, Label, Dense;
    var key := KeyOf(mac);
    if key in seen {
      SeenLabel(seen, key);
    } else {
      LabelSpelled(|seen| + 1);
      NextUnused(seen);
      NextDense(seen, key);
    }
  }

  lemma LabelSpelled(n: nat)
    ensures Label(n) == "**REDACTED-MAC-" + Decimal(n) + "**"
  {
  }

  lemma SeenLabel(seen: Seen, key: string)
    requires Dense(seen) && key in seen
    ensures exists n: nat :: seen[key] == Label(n)
  {
    hide Label;
    var n :| Numbered(seen, key, n);
  }

  lemma NextUnused(seen: Seen)
    requires Dense(seen)
    ensures forall key :: key in seen ==> seen[key] != Label(|seen| + 1)
  {
    hide Label;
    forall key | key in seen ensures seen[key] != Label(|seen| + 1) {
      var n :| Numbered(seen, key, n);
      if Label(n) == Label(|seen| + 1) {
        LabelInjective(n, |seen| + 1);
      }
    }
  }

  lemma NextDense(seen: Seen, key: string)
    requires Dense(seen) && key !in seen
    requires forall other :: other in seen ==> seen[other] != Label(|seen| + 1)
    ensures Dense(seen[key := Label(|seen| + 1)])
  {
    hide Label;
    var seen' := seen[key := Label(|seen| + 1)];
    assert |seen'| == |seen| + 1;
    forall other | other in seen' ensures exists n :: Numbered(seen', other, n) {
      if other == key {
        assert Numbered(seen', key, |seen'|);
      } else {
        var n :| Numbered(seen, other, n);
        assert Numbered(seen', other, n);
      }
    }
    forall n | 1 <= n <= |seen'| ensures exists k :: k in seen' && seen'[k] == Label(n) {
      if n == |seen'| {
        assert seen'[key] == Label(n);
      } else {
        var k :| k in seen && seen[k] == Label(n);
        assert seen'[k] == Label(n);
      }
    }
  }

  /** The values are one address up to case and separators, or one other text up to case. */
  predicate OneAddress(a: string, b: string) {
    if IsMac(Lower(a)) && IsMac(Lower(b)) then Bare(Lower(a)) == Bare(Lower(b))
    else IsMac(Lower(a)) == IsMac(Lower(b)) && Lower(a) == Lower(b)
  }

  /** Anywhere in one report, two values get the same placeholder exactly if they are one address. */
  lemma SharedPlaceholder(a: string, b: string, seen: Seen, later: Seen)
    requires Dense(seen) && Dense(later) && Grows(Placeholder(a, seen).1, later)
    ensures Placeholder(a, seen).0 == Placeholder(b, later).0 <==> OneAddress(a, b)
  {
    hide KeyOf, Dense, OneAddress;
    SharedKey(a, b);
    PlaceholderDense(a, seen);
    PlaceholderDense(b, later);
    DistinctNames(Placeholder(b, later).1, KeyOf(a), KeyOf(b));
  }

  lemma DistinctNames(seen: Seen, a: string, b: string)
    requires Dense(seen) && a in seen && b in seen
    ensures seen[a] == seen[b] <==> a == b
  {
  }

  lemma SharedKey(a: string, b: string)
    ensures KeyOf(a) == KeyOf(b) <==> OneAddress(a, b)
  {
    if IsMac(Lower(a)) != IsMac(Lower(b)) {
      StartsHex(if IsMac(Lower(a)) then Lower(a) else Lower(b));
      assert ("raw:" + Lower(a))[0] == 'r' == ("raw:" + Lower(b))[0];
    } else if !IsMac(Lower(a)) {
      assert ("raw:" + Lower(a))[4..] == Lower(a) && ("raw:" + Lower(b))[4..] == Lower(b);
    }
  }

  lemma StartsHex(mac: string)
    requires IsMac(mac)
    ensures Bare(mac) != "" && IsHex(Bare(mac)[0])
  {
  }

  /** A punctuated MAC has its six pairs of digits left, an unpunctuated one all of its digits. */
  lemma BareIsDigits(mac: string)
    requires IsMac(mac)
    ensures |Bare(mac)| == 12
    ensures forall i :: 0 <= i < 12 ==> Bare(mac)[i] == mac[if |mac| == 12 then i else 3 * (i / 2) + i % 2]
  {
    hide Bare;
    if IsPunctuated(mac) {
      assert mac[3 * 0..] == mac;
      BarePairs(mac, 0);
    } else {
      BareOfHex(mac);
    }
  }

  lemma {:induction false} BarePairs(mac: string, n: nat)
    requires IsPunctuated(mac) && n < 6
    ensures |Bare(mac[3 * n..])| == 12 - 2 * n
    ensures forall i :: 2 * n <= i < 12 ==> Bare(mac[3 * n..])[i - 2 * n] == mac[3 * (i / 2) + i % 2]
    decreases 6 - n
  {
    hide Bare, IsPunctuated;
    if n < 5 {
      BarePairs(mac, n + 1);
    }
    BarePair(mac, n);
  }

  lemma BarePair(mac: string, n: nat)
    requires IsPunctuated(mac) && n < 6
    ensures |mac| == 17 && Bare(mac[3 * n..]) == [mac[3 * n], mac[3 * n + 1]] + (if n == 5 then "" else Bare(mac[3 * (n + 1)..]))
  {
    hide Bare, IsPunctuated, IsSeparator;
    var i := 3 * n;
    PairAt(mac, n);
    BareSteps(mac, i);
    BareSteps(mac, i + 1);
    var rest := Bare(mac[i + 2..]);
    assert [mac[i]] + ([mac[i + 1]] + rest) == [mac[i], mac[i + 1]] + rest;
    if n < 5 {
      BareSteps(mac, i + 2);
    } else {
      BareOfHex(mac[i + 2..]);
    }
  }

  lemma PairAt(mac: string, n: nat)
    requires IsPunctuated(mac) && n < 6
    ensures |mac| == 17 && !IsSeparator(mac[3 * n]) && !IsSeparator(mac[3 * n + 1]) && (n < 5 ==> IsSeparator(mac[3 * n + 2]))
  {
    assert 3 * n % 3 == 0 && (3 * n + 1) % 3 == 1 && (3 * n + 2) % 3 == 2;
  }

  lemma BareSteps(s: string, i: nat)
    requires i < |s|
    ensures Bare(s[i..]) == (if IsSeparator(s[i]) then "" else [s[i]]) + Bare(s[i + 1..])
  {
    assert s[i..][1..] == s[i + 1..];
  }

  lemma {:induction false} BareOfHex(s: string)
    requires forall i :: 0 <= i < |s| ==> IsHex(s[i])
    ensures Bare(s) == s
  {
    if s != "" {
      BareOfHex(s[1..]);
    }
  }

  // ---------- Substitution inside a string ----------

  /** `_MAC_PATTERN.sub` from position `i` on, placeholders handed out left to right. */
  function Substituted(s: string, i: nat, seen: Seen): (string, Seen)
    requires i <= |s|
    decreases |s| - i
  {
    if i == |s| then ("", seen)
    else if MacAt(false, s, i) then
      var (name, seen1) := Placeholder(s[i..i + MAC_LENGTH], seen);
      var (rest, seen2) := Substituted(s, i + MAC_LENGTH, seen1);
      (name + rest, seen2)
    else
      var (rest, seen1) := Substituted(s, i + 1, seen);
      ([s[i]] + rest, seen1)
  }

  lemma {:induction false} SubstitutedDense(s: string, i: nat, seen: Seen)
    requires i <= |s| && Dense(seen)
    ensures var (out, seen') := Substituted(s, i, seen); Dense(seen') && Grows(seen, seen')
    decreases |s| - i
  {
    hide Dense, IsPunctuated, IsWord, Placeholder;
    if i < |s| {
      if MacAt(false, s, i) {
        PlaceholderDense(s[i..i + MAC_LENGTH], seen);
        SubstitutedDense(s, i + MAC_LENGTH, Placeholder(s[i..i + MAC_LENGTH], seen).1);
      } else {
        SubstitutedDense(s, i + 1, seen);
      }
    }
  }

  /** As long as no placeholder shows, the output is the input. */
  lemma {:induction false} LiteralPrefix(s: string, i: nat, seen: Seen, n: nat)
    requires i <= |s| && Dense(seen)
    requires var out := Substituted(s, i, seen).0; n <= |out| && forall k :: 0 <= k < n ==> out[k] != '*'
    ensures i + n <= |s|
    ensures Substituted(s, i, seen) == (s[i..i + n] + Substituted(s, i + n, seen).0, Substituted(s, i + n, seen).1)
    ensures forall k :: i <= k < i + n ==> !MacAt(false, s, k)
    decreases n
  {
    hide Substituted, MacAt, Dense;
    if n == 0 {
      assert s[i..i] + Substituted(s, i, seen).0 == Substituted(s, i, seen).0;
    } else {
      MacShowsStar(s, i, seen);
      OneCharacter(s, i, seen);
      var out, rest := Substituted(s, i, seen).0, Substituted(s, i + 1, seen).0;
      LiteralPrefix(s, i + 1, seen, n - 1) by {
        assert forall k :: 0 <= k < n - 1 ==> rest[k] == out[k + 1];
      }
      var tail := Substituted(s, i + n, seen).0;
      assert [s[i]] + (s[i + 1..i + n] + tail) == s[i..i + n] + tail;
    }
  }

  lemma OneCharacter(s: string, i: nat, seen: Seen)
    requires i <= |s| && Substituted(s, i, seen).0 != "" && !(i < |s| && MacAt(false, s, i))
    ensures i < |s| && var (rest, seen') := Substituted(s, i + 1, seen); Substituted(s, i, seen) == ([s[i]] + rest, seen')
  {
    hide MacAt;
  }

  lemma MacShowsStar(s: string, i: nat, seen: Seen)
    requires i <= |s| && Dense(seen)
    ensures i < |s| && MacAt(false, s, i) ==> var out := Substituted(s, i, seen).0; out != "" && out[0] == '*'
  {
    hide IsPunctuated, IsWord, Placeholder, Dense;
    if i < |s| && MacAt(false, s, i) {
      PlaceholderDense(s[i..i + MAC_LENGTH], seen);
    }
  }

  // ---------- No address is left ----------

  /** A label holds no MAC, and none can begin in it and end beyond it. */
  lemma NoMacFromLabel(n: nat, rest: string, before: bool, k: nat)
    requires k < |Label(n)|
    ensures !MacAt(before, Label(n) + rest, k)
  {
    var text, label_ := Label(n) + rest, Label(n);
    if k + MAC_LENGTH <= |text| {
      var window := text[k..k + MAC_LENGTH];
      if k + MAC_LENGTH > |label_| - 2 {
        StarBreaksMac(window, if k <= |label_| - 2 then |label_| - 2 - k else 0);
      } else {
        InsideLabel(n, k);
        assert window == label_[k..k + MAC_LENGTH];
      }
    }
  }

  lemma StarBreaksMac(window: string, at: nat)
    requires at < |window| && window[at] == '*'
    ensures !IsPunctuated(window)
  {
  }

  lemma InsideLabel(n: nat, k: nat)
    requires k + MAC_LENGTH <= |Label(n)| - 2
    ensures !IsPunctuated(Label(n)[k..k + MAC_LENGTH])
  {
    var head, label_ := "**REDACTED-MAC-", Label(n);
    var window := label_[k..k + MAC_LENGTH];
    assert |head| == 15 && forall i :: 15 <= i < |label_| - 2 ==> IsDigit(label_[i]);
    if k < 2 {
      assert window[0] == '*';
    } else if k == 8 {
      assert window[3] == 'M';
    } else if k == 12 {
      assert window[5] == label_[17];
    } else {
      assert window[2] == label_[k + 2] && !IsSeparator(label_[k + 2]);
    }
  }

  /** In what scanning from `i` leaves, no MAC starts at its first character. */
  lemma NoMacAtStart(s: string, i: nat, seen: Seen, before: bool)
    requires i <= |s| && Dense(seen)
    requires before == (i > 0 && IsWord(s[i - 1])) || (i < |s| ==> !IsWord(s[i]))
    requires !(i < |s| && MacAt(false, s, i))
    ensures !MacAt(before, Substituted(s, i, seen).0, 0)
  {
    hide IsPunctuated, IsWord, Dense, Substituted;
    var out := Substituted(s, i, seen).0;
    if |out| >= MAC_LENGTH && IsPunctuated(out[..MAC_LENGTH]) {
      LiteralMac(s, i, seen);
      MacEnds(s[i..i + MAC_LENGTH]);
      var j := i + MAC_LENGTH;
      assert s[i..j][0] == s[i] && s[i..j][MAC_LENGTH - 1] == s[j - 1];
      if j < |s| && !MacAt(false, s, j) {
        assert Substituted(s, j, seen).0[0] == s[j] by { FirstCharacter(s, j, seen); }
      }
    }
  }

  /** A MAC at the start of the output stands in the input. */
  lemma LiteralMac(s: string, i: nat, seen: Seen)
    requires i <= |s| && Dense(seen)
    requires var out := Substituted(s, i, seen).0; |out| >= MAC_LENGTH && IsPunctuated(out[..MAC_LENGTH])
    ensures i + MAC_LENGTH <= |s| && IsPunctuated(s[i..i + MAC_LENGTH])
    ensures Substituted(s, i, seen).0 == s[i..i + MAC_LENGTH] + Substituted(s, i + MAC_LENGTH, seen).0
  {
    hide Dense, Substituted;
    var out := Substituted(s, i, seen).0;
    assert forall k :: 0 <= k < MAC_LENGTH ==> out[k] == out[..MAC_LENGTH][k] && out[k] != '*';
    LiteralPrefix(s, i, seen, MAC_LENGTH);
    assert out[..MAC_LENGTH] == s[i..i + MAC_LENGTH];
  }

  lemma MacEnds(mac: string)
    requires IsPunctuated(mac)
    ensures IsWord(mac[0]) && IsWord(mac[MAC_LENGTH - 1])
  {
    assert IsHex(mac[0]) && IsHex(mac[16]);
  }

  lemma FirstCharacter(s: string, i: nat, seen: Seen)
    requires i < |s| && !MacAt(false, s, i)
    ensures var out := Substituted(s, i, seen).0; out != "" && out[0] == s[i]
  {
    hide IsPunctuated, IsWord;
  }

  /** Substitution leaves no bounded MAC, not even across the seams it makes. */
  lemma {:induction false} NoMacLeft(s: string, i: nat, seen: Seen, before: bool, k: nat)
    requires i <= |s| && Dense(seen)
    requires before == (i > 0 && IsWord(s[i - 1])) || (i < |s| ==> !IsWord(s[i]))
    ensures !MacAt(before, Substituted(s, i, seen).0, k)
    decreases |s| - i
  {
    hide IsPunctuated, Dense, IsWord, Label;
    var out := Substituted(s, i, seen).0;
    if i == |s| {
    } else if MacAt(false, s, i) {
      var (name, seen1) := Placeholder(s[i..i + MAC_LENGTH], seen);
      PlaceholderDense(s[i..i + MAC_LENGTH], seen);
      var n: nat :| name == Label(n);
      var rest := Substituted(s, i + MAC_LENGTH, seen1).0;
      if k < |name| {
        NoMacFromLabel(n, rest, before, k);
      } else {
        NoMacLeft(s, i + MAC_LENGTH, seen1, false, k - |name|);
        LabelEnds(n);
        ShiftedMac(before, name, rest, k);
      }
    } else if k == 0 {
      NoMacAtStart(s, i, seen, before);
    } else {
      var rest := Substituted(s, i + 1, seen).0;
      NoMacLeft(s, i + 1, seen, IsWord(s[i]), k - 1);
      ShiftedMac(before, [s[i]], rest, k);
    }
  }

  lemma LabelEnds(n: nat)
    ensures Label(n) != "" && !IsWord(Label(n)[|Label(n)| - 1])
  {
  }

  /** A MAC behind a prefix is one of the rest, bounded by the prefix's last character. */
  lemma ShiftedMac(before: bool, prefix: string, rest: string, k: nat)
    requires prefix != "" && k >= |prefix|
    ensures MacAt(before, prefix + rest, k) == MacAt(IsWord(prefix[|prefix| - 1]), rest, k - |prefix|)
  {
    hide IsPunctuated, IsWord;
    var text := prefix + rest;
    if k + MAC_LENGTH <= |text| {
      assert text[k..k + MAC_LENGTH] == rest[k - |prefix|..k - |prefix| + MAC_LENGTH];
    }
  }

  /** A value that is no MAC as a whole is clean after substitution. */
  lemma SubstitutedClean(s: string, seen: Seen)
    requires Dense(seen) && !IsMac(s)
    ensures Clean(Substituted(s, 0, seen).0)
  {
    hide Dense;
    var out := Substituted(s, 0, seen).0;
    forall k ensures !MacAt(false, out, k) {
      NoMacLeft(s, 0, seen, false, k);
    }
    WholeMac(out);
    if IsMac(out) && !IsPunctuated(out) {
      LiteralPrefix(s, 0, seen, 12);
      WholeLiteral(s, out, Substituted(s, 12, seen).0);
    }
  }

  lemma WholeMac(s: string)
    ensures IsPunctuated(s) ==> MacAt(false, s, 0)
  {
    if |s| == MAC_LENGTH {
      assert s[0..MAC_LENGTH] == s;
    }
  }

  lemma WholeLiteral(s: string, out: string, rest: string)
    requires 12 <= |s| && out == s[0..12] + rest && |out| == 12
    ensures rest == "" && out == s[0..12]
  {
  }

  // ---------- Whole payloads ----------

  datatype Key = StrKey(text: string) | OtherKey(n: int)

  /** A payload: JSON, with mappings as ordered fields. */
  datatype Json =
    | Null | Bool(on: bool) | Num(n: real) | Str(text: string)
    | Arr(items: Items) | Obj(fields: Fields)

  datatype Items = NoItems | Item(head: Json, tail: Items)

  datatype Fields = NoFields | Field(key: Key, value: Json, rest: Fields)

  const REDACTED := "**REDACTED**"

  const MAC_KEYS := {
    "mac", "macAddress", "mac_address", "macAddresses", "mac_addresses", "macFilterList", "mac_filter_list",
    "bssid", "apMac", "ap_mac", "swMac", "sw_mac", "uplinkMac", "uplink_mac", "gatewayMac", "gateway_mac",
    "wanMac", "wan_mac", "lanMac", "lan_mac", "client_mac"
  }

  predicate IsMacKey(key: Key) {
    key.StrKey? && key.text in MAC_KEYS
  }

  /** `d[key] = value`: a new key goes last, a known one keeps its place. */
  function Put(fields: Fields, key: Key, value: Json): Fields {
    match fields
    case NoFields => Field(key, value, NoFields)
    case Field(k, v, rest) => if k == key then Field(k, value, rest) else Field(k, v, Put(rest, key, value))
  }

  function AnonymousText(s: string, seen: Seen, isMacField: bool): (string, Seen) {
    if s == "" || s == REDACTED then (s, seen)
    else if isMacField || IsMac(s) then Placeholder(s, seen)
    else Substituted(s, 0, seen)
  }

  function AnonymousKey(key: Key, seen: Seen): (Key, Seen) {
    if key.StrKey? && IsMac(key.text)
    then var (name, seen') := Placeholder(key.text, seen); (StrKey(name), seen')
    else (key, seen)
  }

  /** `_anonymize_macs` */
  function Anonymous(v: Json, seen: Seen, isMacField: bool): (Json, Seen) {
    match v
    case Str(text) => var (out, seen') := AnonymousText(text, seen, isMacField); (Str(out), seen')
    case Arr(items) => var (out, seen') := AnonymousItems(items, seen, isMacField); (Arr(out), seen')
    case Obj(fields) => var (out, seen') := AnonymousFields(fields, NoFields, seen); (Obj(out), seen')
    case _ => (v, seen)
  }

  function AnonymousItems(items: Items, seen: Seen, isMacField: bool): (Items, Seen) {
    match items
    case NoItems => (NoItems, seen)
    case Item(head, tail) =>
      var (head', seen1) := Anonymous(head, seen, isMacField);
      var (tail', seen2) := AnonymousItems(tail, seen1, isMacField);
      (Item(head', tail'), seen2)
  }

  /** The fields in order, put one by one into the new mapping `done`. */
  function AnonymousFields(fields: Fields, done: Fields, seen: Seen): (Fields, Seen)
    decreases fields
  {
    match fields
    case NoFields => (done, seen)
    case Field(key, value, rest) =>
      var (key', seen1) := AnonymousKey(key, seen);
      var (value', seen2) := Anonymous(value, seen1, IsMacKey(key));
      AnonymousFields(rest, Put(done, key', value'), seen2)
  }

  /** No string in the payload names a MAC, and no mapping key is one. */
  ghost predicate CleanJson(v: Json) {
    match v
    case Str(text) => Clean(text)
    case Arr(items) => CleanItems(items)
    case Obj(fields) => CleanFields(fields)
    case _ => true
  }

  ghost predicate CleanItems(items: Items) {
    match items
    case NoItems => true
    case Item(head, tail) => CleanJson(head) && CleanItems(tail)
  }

  ghost predicate CleanFields(fields: Fields) {
    match fields
    case NoFields => true
    case Field(key, value, rest) => (key.StrKey? ==> !IsMac(key.text)) && CleanJson(value) && CleanFields(rest)
  }

  lemma {:induction false} PutClean(fields: Fields, key: Key, value: Json)
    requires CleanFields(fields) && CleanJson(value) && (key.StrKey? ==> !IsMac(key.text))
    ensures CleanFields(Put(fields, key, value))
  {
    hide IsMac, CleanJson;
    match fields
    case NoFields =>
    case Field(k, v, rest) =>
      if k != key {
        PutClean(rest, key, value);
      }
  }

  lemma LabelClean(n: nat)
    ensures Clean(Label(n)) && !IsMac(Label(n))
  {
    forall k: nat ensures !MacAt(false, Label(n), k) {
      if k < |Label(n)| {
        NoMacFromLabel(n, "", false, k);
        assert Label(n) + "" == Label(n);
      }
    }
    assert Label(n)[0] == '*';
  }

  lemma PlainTextClean(s: string)
    requires s == "" || s == REDACTED
    ensures Clean(s)
  {
    assert |s| < MAC_LENGTH && (s == REDACTED ==> s[0] == '*');
  }

  lemma AnonymousTextClean(s: string, seen: Seen, isMacField: bool)
    requires Dense(seen)
    ensures var (out, seen') := AnonymousText(s, seen, isMacField);
      Clean(out) && Dense(seen') && Grows(seen, seen')
  {
    hide Clean, Dense, Label, KeyOf, IsMac, MacAt;
    if s == "" || s == REDACTED {
      PlainTextClean(s);
    } else if isMacField || IsMac(s) {
      PlaceholderDense(s, seen);
      var n: nat :| Placeholder(s, seen).0 == Label(n);
      LabelClean(n);
    } else {
      SubstitutedDense(s, 0, seen);
      SubstitutedClean(s, seen);
    }
  }

  lemma AnonymousKeyClean(key: Key, seen: Seen)
    requires Dense(seen)
    ensures var (key', seen') := AnonymousKey(key, seen);
      (key'.StrKey? ==> !IsMac(key'.text)) && Dense(seen') && Grows(seen, seen')
  {
    hide Dense, Label, KeyOf, IsMac;
    if key.StrKey? && IsMac(key.text) {
      PlaceholderDense(key.text, seen);
      var n: nat :| Placeholder(key.text, seen).0 == Label(n);
      LabelClean(n);
    }
  }

  /** The anonymized payload is clean; placeholders stay dense and keep their numbers. */
  lemma {:induction false} AnonymousClean(v: Json, seen: Seen, isMacField: bool)
    requires Dense(seen)
    ensures var (out, seen') := Anonymous(v, seen, isMacField);
      CleanJson(out) && Dense(seen') && Grows(seen, seen')
  {
    hide Dense, Clean, AnonymousText, AnonymousItems, AnonymousFields;
    match v
    case Str(text) => AnonymousTextClean(text, seen, isMacField);
    case Arr(items) => AnonymousItemsClean(items, seen, isMacField);
    case Obj(fields) => AnonymousFieldsClean(fields, NoFields, seen);
    case _ =>
  }

  lemma {:induction false} AnonymousItemsClean(items: Items, seen: Seen, isMacField: bool)
    requires Dense(seen)
    ensures var (out, seen') := AnonymousItems(items, seen, isMacField);
      CleanItems(out) && Dense(seen') && Grows(seen, seen')
  {
    hide Dense, CleanJson, Anonymous;
    match items
    case NoItems =>
    case Item(head, tail) =>
      AnonymousClean(head, seen, isMacField);
      AnonymousItemsClean(tail, Anonymous(head, seen, isMacField).1, isMacField);
  }

  lemma {:induction false} AnonymousFieldsClean(fields: Fields, done: Fields, seen: Seen)
    requires Dense(seen) && CleanFields(done)
    ensures var (out, seen') := AnonymousFields(fields, done, seen);
      CleanFields(out) && Dense(seen') && Grows(seen, seen')
    decreases fields
  {
    hide Dense, CleanJson, CleanFields, Anonymous, AnonymousKey, IsMacKey, Put, IsMac;
    match fields
    case NoFields =>
    case Field(key, value, rest) =>
      AnonymousKeyClean(key, seen);
      var (key', seen1) := AnonymousKey(key, seen);
      AnonymousClean(value, seen1, IsMacKey(key));
      var (value', seen2) := Anonymous(value, seen1, IsMacKey(key));
      PutClean(done, key', value');
      AnonymousFieldsClean(rest, Put(done, key', value'), seen2);
  }

  // ---------- Replacing at once, with the finished table ----------

  /** The placeholder the finished report has for a value. */
  function NameIn(table: Seen, mac: string): string {
    if KeyOf(mac) in table then table[KeyOf(mac)] else ""
  }

  /** Where the next bounded MAC starts, from `i` on; the end if there is none. */
  function NextMac(s: string, i: nat): (k: nat)
    requires i <= |s|
    ensures i <= k <= |s| && (k < |s| ==> MacAt(false, s, k)) && forall j :: i <= j < k ==> !MacAt(false, s, j)
    decreases |s| - i
  {
    if i == |s| || MacAt(false, s, i) then i else NextMac(s, i + 1)
  }

  /** Everything between MACs as it is, every MAC by its name in the table. */
  function TextWithNames(s: string, i: nat, table: Seen): string
    requires i <= |s|
    decreases |s| - i
  {
    var k := NextMac(s, i);
    if k == |s| then s[i..] else s[i..k] + NameIn(table, s[k..k + MAC_LENGTH]) + TextWithNames(s, k + MAC_LENGTH, table)
  }

  /** The payload with every MAC by its name in the table. */
  function WithNames(v: Json, table: Seen, isMacField: bool): Json {
    match v
    case Str(text) =>
      if text == "" || text == REDACTED then v
      else Str(if isMacField || IsMac(text) then NameIn(table, text) else TextWithNames(text, 0, table))
    case Arr(items) => Arr(ItemsWithNames(items, table, isMacField))
    case Obj(fields) => Obj(FieldsWithNames(fields, NoFields, table))
    case _ => v
  }

  function ItemsWithNames(items: Items, table: Seen, isMacField: bool): Items {
    match items
    case NoItems => NoItems
    case Item(head, tail) => Item(WithNames(head, table, isMacField), ItemsWithNames(tail, table, isMacField))
  }

  function FieldsWithNames(fields: Fields, done: Fields, table: Seen): Fields
    decreases fields
  {
    match fields
    case NoFields => done
    case Field(key, value, rest) =>
      var key' := if key.StrKey? && IsMac(key.text) then StrKey(NameIn(table, key.text)) else key;
      FieldsWithNames(rest, Put(done, key', WithNames(value, table, key.StrKey? && key.text in MAC_KEYS)), table)
  }

  lemma {:induction false} SubstitutedSkips(s: string, i: nat, k: nat, seen: Seen)
    requires i <= k <= |s| && forall j :: i <= j < k ==> !MacAt(false, s, j)
    ensures Substituted(s, i, seen) == (s[i..k] + Substituted(s, k, seen).0, Substituted(s, k, seen).1)
    decreases k - i
  {
    hide MacAt;
    if i == k {
      assert s[i..k] + Substituted(s, k, seen).0 == Substituted(s, k, seen).0;
    } else {
      SubstitutedSkips(s, i + 1, k, seen);
      OneMore(s, i, k, Substituted(s, k, seen).0);
    }
  }

  lemma OneMore(s: string, i: nat, k: nat, rest: string)
    requires i < k <= |s|
    ensures [s[i]] + (s[i + 1..k] + rest) == s[i..k] + rest
  {
  }

  lemma NamedLater(mac: string, seen: Seen, table: Seen)
    requires Dense(seen) && Grows(Placeholder(mac, seen).1, table)
    ensures NameIn(table, mac) == Placeholder(mac, seen).0
  {
    hide Dense, KeyOf, Label;
    PlaceholderDense(mac, seen);
  }

  lemma GrowsOn(a: Seen, b: Seen, c: Seen)
    requires Grows(a, b) && Grows(b, c)
    ensures Grows(a, c)
  {
  }

  /** Text by text, numbering as it goes comes to the same as naming everything from the finished table. */
  lemma {:induction false} SubstitutedAtOnce(s: string, i: nat, seen: Seen, table: Seen)
    requires i <= |s| && Dense(seen) && Grows(Substituted(s, i, seen).1, table)
    ensures Substituted(s, i, seen).0 == TextWithNames(s, i, table)
    decreases |s| - i
  {
    hide Dense, MacAt, Grows, Placeholder, NameIn;
    var k := NextMac(s, i);
    SubstitutedSkips(s, i, k, seen);
    if k < |s| {
      MacFits(s, k);
      var mac := s[k..k + MAC_LENGTH];
      var (name, seen') := Placeholder(mac, seen);
      PlaceholderDense(mac, seen);
      SubstitutedDense(s, k + MAC_LENGTH, seen');
      GrowsOn(seen', Substituted(s, k + MAC_LENGTH, seen').1, table);
      NamedLater(mac, seen, table);
      SubstitutedAtOnce(s, k + MAC_LENGTH, seen', table);
      assert s[i..k] + (name + Substituted(s, k + MAC_LENGTH, seen').0) == s[i..k] + name + Substituted(s, k + MAC_LENGTH, seen').0;
    } else {
      assert s[i..k] + "" == s[i..];
    }
  }

  lemma MacFits(s: string, k: nat)
    requires MacAt(false, s, k)
    ensures k + MAC_LENGTH <= |s|
  {
  }

  /** The whole walk replaces each MAC by its final placeholder and changes nothing else. */
  lemma {:induction false} AnonymousAtOnce(v: Json, seen: Seen, isMacField: bool, table: Seen)
    requires Dense(seen) && Grows(Anonymous(v, seen, isMacField).1, table)
    ensures Anonymous(v, seen, isMacField).0 == WithNames(v, table, isMacField)
  {
    hide Dense, Grows, Placeholder, NameIn, IsMac, Substituted, TextWithNames, AnonymousItems, AnonymousFields, ItemsWithNames, FieldsWithNames;
    match v
    case Str(text) =>
      if text != "" && text != REDACTED {
        if isMacField || IsMac(text) {
          NamedLater(text, seen, table);
        } else {
          SubstitutedAtOnce(text, 0, seen, table);
        }
      }
    case Arr(items) => ItemsAtOnce(items, seen, isMacField, table);
    case Obj(fields) => FieldsAtOnce(fields, NoFields, seen, table);
    case _ =>
  }

  lemma {:induction false} ItemsAtOnce(items: Items, seen: Seen, isMacField: bool, table: Seen)
    requires Dense(seen) && Grows(AnonymousItems(items, seen, isMacField).1, table)
    ensures AnonymousItems(items, seen, isMacField).0 == ItemsWithNames(items, table, isMacField)
  {
    hide Dense, Grows, Anonymous, WithNames;
    match items
    case NoItems =>
    case Item(head, tail) =>
      var seen1 := Anonymous(head, seen, isMacField).1;
      AnonymousClean(head, seen, isMacField);
      AnonymousItemsClean(tail, seen1, isMacField);
      GrowsOn(seen1, AnonymousItems(tail, seen1, isMacField).1, table);
      AnonymousAtOnce(head, seen, isMacField, table);
      ItemsAtOnce(tail, seen1, isMacField, table);
  }

  lemma {:induction false} FieldsAtOnce(fields: Fields, done: Fields, seen: Seen, table: Seen)
    requires Dense(seen) && Grows(AnonymousFields(fields, done, seen).1, table)
    ensures AnonymousFields(fields, done, seen).0 == FieldsWithNames(fields, done, table)
    decreases fields
  {
    hide Dense, Grows, Anonymous, WithNames, AnonymousKey, Put, NameIn, MAC_KEYS, CleanFields, IsMac;
    match fields
    case NoFields =>
    case Field(key, value, rest) =>
      var isMacField := IsMacKey(key);
      var (key', seen1) := AnonymousKey(key, seen);
      var (value', seen2) := Anonymous(value, seen1, isMacField);
      AnonymousKeyClean(key, seen);
      AnonymousClean(value, seen1, isMacField);
      FieldsGrow(rest, Put(done, key', value'), seen2);
      GrowsOn(seen2, AnonymousFields(rest, Put(done, key', value'), seen2).1, table);
      GrowsOn(seen1, seen2, table);
      KeyAtOnce(key, seen, table);
      AnonymousAtOnce(value, seen1, isMacField, table);
      FieldsAtOnce(rest, Put(done, key', value'), seen2, table);
  }

  lemma KeyAtOnce(key: Key, seen: Seen, table: Seen)
    requires Dense(seen) && Grows(AnonymousKey(key, seen).1, table)
    ensures AnonymousKey(key, seen).0 == if key.StrKey? && IsMac(key.text) then StrKey(NameIn(table, key.text)) else key
  {
    hide Dense, Grows, Placeholder, NameIn, IsMac;
    if key.StrKey? && IsMac(key.text) {
      NamedLater(key.text, seen, table);
    }
  }

  lemma {:induction false} FieldsGrow(fields: Fields, done: Fields, seen: Seen)
    requires Dense(seen)
    ensures Grows(seen, AnonymousFields(fields, done, seen).1)
    decreases fields
  {
    hide Dense, Grows, Anonymous, AnonymousKey, Put, IsMacKey;
    match fields
    case NoFields => GrowsSelf(seen);
    case Field(key, value, rest) =>
      var (key', seen1) := AnonymousKey(key, seen);
      var (value', seen2) := Anonymous(value, seen1, IsMacKey(key));
      AnonymousKeyClean(key, seen);
      AnonymousClean(value, seen1, IsMacKey(key));
      FieldsGrow(rest, Put(done, key', value'), seen2);
      GrowsOn(seen, seen1, seen2);
      GrowsOn(seen, seen2, AnonymousFields(rest, Put(done, key', value'), seen2).1);
  }

  lemma GrowsSelf(seen: Seen)
    ensures Grows(seen, seen)
  {
  }

  /** Values that hold no MAC. */
  ghost predicate Unmarked(v: Json, isMacField: bool) {
    match v
    case Str(text) => text == "" || text == REDACTED || (!isMacField && Clean(text))
    case Arr(items) => ItemsUnmarked(items, isMacField)
    case Obj(_) => false
    case _ => true
  }

  ghost predicate ItemsUnmarked(items: Items, isMacField: bool) {
    match items
    case NoItems => true
    case Item(head, tail) => Unmarked(head, isMacField) && ItemsUnmarked(tail, isMacField)
  }

  /** A value without MACs stands as it is, whatever came before it. */
  lemma {:induction false} UnmarkedStands(v: Json, seen: Seen, isMacField: bool)
    requires Unmarked(v, isMacField)
    ensures Anonymous(v, seen, isMacField) == (v, seen)
  {
    hide Clean, MacAt, IsMac, AnonymousItems, ItemsUnmarked;
    match v
    case Str(text) =>
      if text != "" && text != REDACTED {
        CleanText(text);
        SubstitutedSkips(text, 0, |text|, seen);
        assert text[0..|text|] + "" == text;
      }
    case Arr(items) => UnmarkedItemsStand(items, seen, isMacField);
    case _ =>
  }

  lemma CleanText(text: string)
    requires Clean(text)
    ensures !IsMac(text) && forall i: nat :: !MacAt(false, text, i)
  {
  }

  lemma {:induction false} UnmarkedItemsStand(items: Items, seen: Seen, isMacField: bool)
    requires ItemsUnmarked(items, isMacField)
    ensures AnonymousItems(items, seen, isMacField) == (items, seen)
  {
    hide Unmarked, Anonymous;
    if items.Item? {
      UnmarkedStands(items.head, seen, isMacField);
      UnmarkedItemsStand(items.tail, seen, isMacField);
    }
  }

  /** The placeholders of one report, handed out in place as the payload is walked. */
  class Report {
    var seen: Seen

    ghost predicate Valid()
      reads this
    {
      Dense(seen)
    }

    constructor ()
      ensures Valid() && seen == map[]
    {
      seen := map[];
    }

    method NextPlaceholder(mac: string) returns (name: string)
      requires Valid()
      modifies this
      ensures Valid() && Grows(old(seen), seen)
      ensures (name, seen) == Placeholder(mac, old(seen))
    {
      PlaceholderDense(mac, seen);
      var key := KeyOf(mac);
      if key in seen {
        return seen[key];
      }
      name := Label(|seen| + 1);
      seen := seen[key := name];
    }

    method Substitute(s: string) returns (out: string)
      requires Valid()
      modifies this
      ensures Valid() && Grows(old(seen), seen)
      ensures (out, seen) == Substituted(s, 0, old(seen))
    {
      hide Dense, IsWord, IsPunctuated, Placeholder;
      SubstitutedDense(s, 0, seen);
      out := "";
      var i := 0;
      assert out + Substituted(s, 0, seen).0 == Substituted(s, 0, seen).0;
      while i < |s|
        invariant 0 <= i <= |s| && Valid()
        invariant (out + Substituted(s, i, seen).0, Substituted(s, i, seen).1) == Substituted(s, 0, old(seen))
      {
        if MacAt(false, s, i) {
          var name := NextPlaceholder(s[i..i + MAC_LENGTH]);
          i := i + MAC_LENGTH;
          assert out + (name + Substituted(s, i, seen).0) == out + name + Substituted(s, i, seen).0;
          out := out + name;
        } else {
          assert out + ([s[i]] + Substituted(s, i + 1, seen).0) == out + [s[i]] + Substituted(s, i + 1, seen).0;
          out := out + [s[i]];
          i := i + 1;
        }
      }
      assert out + "" == out;
    }

    method Anonymize(v: Json, isMacField: bool) returns (out: Json)
      requires Valid()
      modifies this
      ensures Valid() && Grows(old(seen), seen) && CleanJson(out)
      ensures (out, seen) == Anonymous(v, old(seen), isMacField)
      decreases v
    {
      hide Dense, Clean, IsMac, REDACTED;
      AnonymousClean(v, seen, isMacField);
      match v {
        case Str(text) =>
          if text == "" || text == REDACTED {
            return v;
          }
          var text';
          if isMacField || IsMac(text) {
            text' := NextPlaceholder(text);
          } else {
            text' := Substitute(text);
          }
          return Str(text');
        case Arr(items) =>
          var items' := AnonymizeItems(items, isMacField);
          return Arr(items');
        case Obj(fields) =>
          var fields' := AnonymizeFields(fields);
          return Obj(fields');
        case _ =>
          return v;
      }
    }

    method AnonymizeItems(items: Items, isMacField: bool) returns (out: Items)
      requires Valid()
      modifies this
      ensures Valid()
      ensures (out, seen) == AnonymousItems(items, old(seen), isMacField)
      decreases items
    {
      match items {
        case NoItems =>
          return NoItems;
        case Item(head, tail) =>
          var head' := Anonymize(head, isMacField);
          var tail' := AnonymizeItems(tail, isMacField);
          return Item(head', tail');
      }
    }

    method AnonymizeFields(fields: Fields) returns (out: Fields)
      requires Valid()
      modifies this
      ensures Valid()
      ensures (out, seen) == AnonymousFields(fields, NoFields, old(seen))
      decreases fields, 0
    {
      hide Dense, IsMac, MAC_KEYS;
      out := NoFields;
      var left := fields;
      while left.Field?
        invariant Valid() && (left == fields || left < fields)
        invariant AnonymousFields(left, out, seen) == AnonymousFields(fields, NoFields, old(seen))
        decreases left
      {
        var key := left.key;
        if key.StrKey? && IsMac(key.text) {
          var name := NextPlaceholder(key.text);
          key := StrKey(name);
        }
        var value := Anonymize(left.value, IsMacKey(left.key));
        out := Put(out, key, value);
        left := left.rest;
      }
    }
  }
}

/** Signed Access webhook deliveries: signature, freshness window and replay cache. */
module AccessWebhook {
  import opened Text

  const MAX_SIGNATURE_AGE_SECONDS := 300
  const MAX_FUTURE_SKEW_SECONDS := 60
  const MAX_TIMESTAMP_DIGITS := 12
  const DIGEST_LENGTH := 64

  newtype Byte = x: int | 0 <= x < 256

  // ---------- The signature header ----------

  /** Where `c` first occurs in `s`; `|s|` if nowhere. */
  function IndexOf(s: string, c: char): (i: nat)
    ensures i <= |s| && (i < |s| ==> s[i] == c)
    ensures forall k :: 0 <= k < i ==> s[k] != c
  {
    if s == "" || s[0] == c then 0 else 1 + IndexOf(s[1..], c)
  }

  function Split(s: string, sep: char): (parts: seq<string>)
    ensures parts != []
    decreases |s|
  {
    var i := IndexOf(s, sep);
    if i == |s| then [s] else [s[..i]] + Split(s[i + 1..], sep)
  }

  /** The parts as a dictionary in which the first value of a key stays; None if one lacks `=`. */
  function Fields(parts: seq<string>): Option<map<string, string>> {
    if parts == [] then Some(map[])
    else
      var part := Strip(parts[0]);
      var i := IndexOf(part, '=');
      var rest := Fields(parts[1..]);
      if i == |part| || rest.None? then None
      else Some(rest.value[part[..i] := part[i + 1..]])
  }

  predicate IsTimestamp(text: string) {
    0 < |text| <= MAX_TIMESTAMP_DIGITS && forall c :: c in text ==> IsDigit(c)
  }

  predicate IsDigest(text: string) {
    |text| == DIGEST_LENGTH && forall c :: c in text ==> IsDigit(c) || 'a' <= c <= 'f'
  }

  datatype Signature = Signature(timestamp: string, digest: string)

  /** `parse_signature_header`; None is its malformed rejection. */
  function ParseHeader(header: string): (parsed: Option<Signature>)
    ensures parsed.Some? ==> IsTimestamp(parsed.value.timestamp) && IsDigest(parsed.value.digest)
  {
    var fields := Fields(Split(header, ','));
    if fields.None? then None
    else
      var t := if "t" in fields.value then fields.value["t"] else "";
      var v1 := if "v1" in fields.value then fields.value["v1"] else "";
      if IsTimestamp(t) && IsDigest(v1) then Some(Signature(t, v1)) else None
  }

  function Join(parts: seq<string>, sep: char): string
    requires parts != []
  {
    if |parts| == 1 then parts[0] else parts[0] + [sep] + Join(parts[1..], sep)
  }

  /** The parts are what stands between the separators. */
  lemma {:induction false} SplitIsJoin(s: string, sep: char)
    ensures Join(Split(s, sep), sep) == s && forall part :: part in Split(s, sep) ==> sep !in part
    decreases |s|
  {
    var i := IndexOf(s, sep);
    if i == |s| {
      assert Split(s, sep) == [s];
    } else {
      var rest := Split(s[i + 1..], sep);
      SplitIsJoin(s[i + 1..], sep);
      assert Split(s, sep)[1..] == rest && s == s[..i] + [sep] + s[i + 1..];
      assert forall k :: 0 <= k < i ==> s[..i][k] == s[k];
    }
  }

  /** The stripped part reads `key=value`, split at its first `=`. */
  predicate Reads(part: string, key: string, value: string) {
    '=' !in key && Strip(part) == key + "=" + value
  }

  /** Part `i` is the first of the key. */
  ghost predicate FirstOf(parts: seq<string>, key: string, value: string, i: int) {
    0 <= i < |parts| && Reads(parts[i], key, value) && forall j, other :: 0 <= j < i ==> !Reads(parts[j], key, other)
  }

  ghost predicate HasFirst(parts: seq<string>, key: string, value: string) {
    exists i :: FirstOf(parts, key, value, i)
  }

  lemma {:induction false} FieldsAreFirsts(parts: seq<string>)
    ensures Fields(parts).Some? <==> forall part :: part in parts ==> '=' in Strip(part)
    ensures Fields(parts).Some? ==>
              forall key, value :: key in Fields(parts).value && Fields(parts).value[key] == value <==> HasFirst(parts, key, value)
  {
    hide Strip, Reads;
    if parts != [] {
      FieldsAreFirsts(parts[1..]);
      PartReads(parts[0]);
      assert forall part :: part in parts <==> part == parts[0] || part in parts[1..];
      if Fields(parts).Some? {
        var first, m, rest := Strip(parts[0]), Fields(parts).value, Fields(parts[1..]).value;
        var i := IndexOf(first, '=');
        assert m == rest[first[..i] := first[i + 1..]] && Reads(parts[0], first[..i], first[i + 1..]);
        forall key, value ensures key in m && m[key] == value <==> HasFirst(parts, key, value) {
          FirstOfCons(parts, key, value);
          assert KeyedAs(parts[0], key) <==> key == first[..i];
        }
      }
    }
  }

  ghost predicate KeyedAs(part: string, key: string) {
    exists value :: Reads(part, key, value)
  }

  /** A part with `=` reads one way, one without reads no way. */
  lemma PartReads(part: string)
    ensures var p := Strip(part); var i := IndexOf(p, '=');
      && (i < |p| <==> '=' in p)
      && forall key, value :: Reads(part, key, value) <==> i < |p| && key == p[..i] && value == p[i + 1..]
  {
    hide Strip;
    var p := Strip(part);
    var i := IndexOf(p, '=');
    forall key, value ensures Reads(part, key, value) <==> i < |p| && key == p[..i] && value == p[i + 1..] {
      if Reads(part, key, value) {
        assert p[|key|] == '=' && forall k :: 0 <= k < |key| ==> p[k] == key[k] && key[k] in key;
        assert i == |key|;
      }
      if i < |p| && key == p[..i] && value == p[i + 1..] {
        assert p == key + "=" + value && forall k :: 0 <= k < |key| ==> key[k] == p[k];
      }
    }
  }

  lemma FirstOfCons(parts: seq<string>, key: string, value: string)
    requires parts != []
    ensures HasFirst(parts, key, value)
            <==> Reads(parts[0], key, value) || (HasFirst(parts[1..], key, value) && !KeyedAs(parts[0], key))
  {
    hide Reads;
    var rest := parts[1..];
    if i :| FirstOf(parts, key, value, i) {
      if i > 0 {
        assert FirstOf(rest, key, value, i - 1);
      }
    }
    if Reads(parts[0], key, value) {
      assert FirstOf(parts, key, value, 0);
    } else if HasFirst(rest, key, value) && !KeyedAs(parts[0], key) {
      var i :| FirstOf(rest, key, value, i);
      assert FirstOf(parts, key, value, i + 1);
    }
  }

  /** A header is accepted exactly if every part has an `=` and the first `t` and `v1` are well-formed, and reads as these. */
  lemma AcceptedHeader(header: string, sig: Signature)
    ensures ParseHeader(header) == Some(sig)
            <==> && (forall part :: part in Split(header, ',') ==> '=' in Strip(part))
                 && IsTimestamp(sig.timestamp) && HasFirst(Split(header, ','), "t", sig.timestamp)
                 && IsDigest(sig.digest) && HasFirst(Split(header, ','), "v1", sig.digest)
  {
    hide Split, Strip, Fields, HasFirst;
    FieldsAreFirsts(Split(header, ','));
    assert !IsTimestamp("") && !IsDigest("");
  }

  /** Free of spaces and of the header's own punctuation. */
  predicate IsWord(text: string) {
    forall c :: c in text ==> !IsSpace(c) && c != ',' && c != '='
  }

  /** The first field of a header is read as written, unless it comes again: the first value stays. */
  lemma FieldsHead(key: string, value: string, tail: string)
    requires IsWord(key) && IsWord(value)
    ensures var rest := Fields(Split(tail, ','));
      Fields(Split(key + "=" + value + "," + tail, ','))
      == if rest.Some? then Some(rest.value[key := value]) else None
  {
    FieldIsPart(key, value);
    SplitHead(key + "=" + value, tail);
    ReadPart(key, value, Split(tail, ','));
  }

  lemma FieldsLast(key: string, value: string)
    requires IsWord(key) && IsWord(value)
    ensures Fields(Split(key + "=" + value, ',')) == Some(map[key := value])
  {
    FieldIsPart(key, value);
    ReadPart(key, value, []);
    hide Fields, Strip, IndexOf, IsWord;
    assert Split(key + "=" + value, ',') == [key + "=" + value] + [];
  }

  lemma FieldIsPart(key: string, value: string)
    requires IsWord(key) && IsWord(value)
    ensures var part := key + "=" + value; IndexOf(part, ',') == |part|
  {
    var part := key + "=" + value;
    assert forall i :: 0 <= i < |part| ==> part[i] in key || part[i] == '=' || part[i] in value;
  }

  lemma ReadPart(key: string, value: string, rest: seq<string>)
    requires IsWord(key) && IsWord(value)
    ensures Fields([key + "=" + value] + rest)
            == if Fields(rest).Some? then Some(Fields(rest).value[key := value]) else None
  {
    hide Strip, IndexOf, IsWord;
    var part := key + "=" + value;
    assert ([part] + rest)[1..] == rest;
    WordPart(key, value);
    assert part[..|key|] == key && part[|key| + 1..] == value;
  }

  lemma WordPart(key: string, value: string)
    requires IsWord(key) && IsWord(value)
    ensures var part := key + "=" + value; Strip(part) == part && IndexOf(part, '=') == |key|
  {
    hide IsSpace, Strip;
    var part := key + "=" + value;
    forall i | 0 <= i < |part| ensures !IsSpace(part[i]) {
      assert !IsSpace('=') by {
        PlainEquals();
      }
      assert part[i] in key || part[i] == '=' || part[i] in value;
    }
    StripOfSpaceFree(part);
    assert part[|key|] == '=' && forall k :: 0 <= k < |key| ==> part[k] == key[k] && key[k] in key;
  }

  lemma PlainEquals()
    ensures !IsSpace('=')
  {
  }

  lemma SplitHead(head: string, tail: string)
    requires IndexOf(head, ',') == |head|
    ensures Split(head + "," + tail, ',') == [head] + Split(tail, ',')
  {
    var s := head + "," + tail;
    assert s[|head|] == ',' && forall k :: 0 <= k < |head| ==> s[k] == head[k];
    assert IndexOf(s, ',') == |head|;
    assert s[..|head|] == head && s[|head| + 1..] == tail;
  }

  function Header(sig: Signature): string {
    "t=" + sig.timestamp + ",v1=" + sig.digest
  }

  /** What the console sends is read back, whatever well-formed fields follow. */
  lemma HeaderRoundTrip(sig: Signature, more: string)
    requires IsTimestamp(sig.timestamp) && IsDigest(sig.digest)
    ensures ParseHeader(Header(sig)) == Some(sig)
    ensures Fields(Split(more, ',')).Some? ==> ParseHeader(Header(sig) + "," + more) == Some(sig)
  {
    hide Strip, IndexOf, Fields, Split, IsDigest, IsTimestamp;
    WordsOfSignature(sig);
    var tail := "v1" + "=" + sig.digest;
    FieldsLast("v1", sig.digest);
    FieldsHead("t", sig.timestamp, tail);
    assert Header(sig) == "t" + "=" + sig.timestamp + "," + tail;
    FieldsHead("v1", sig.digest, more);
    FieldsHead("t", sig.timestamp, tail + "," + more);
    assert Header(sig) + "," + more == "t" + "=" + sig.timestamp + "," + (tail + "," + more);
    assert "t" != "v1";
  }

  lemma WordsOfSignature(sig: Signature)
    requires IsTimestamp(sig.timestamp) && IsDigest(sig.digest)
    ensures IsWord(sig.timestamp) && IsWord(sig.digest) && IsWord("t") && IsWord("v1")
  {
  }

  // ---------- Verifying one delivery ----------

  /** Keyed hash of a message under a secret, in hexadecimal. */
  type Mac = (string, seq<Byte>) -> string

  function Ascii(text: string): (bytes: seq<Byte>)
    requires forall c :: c in text ==> c < '\U{80}'
    ensures |bytes| == |text| && forall i :: 0 <= i < |text| ==> bytes[i] as int == text[i] as int
  {
    seq(|text|, i requires 0 <= i < |text| => assert text[i] in text; text[i] as int as Byte)
  }

  /** `<t>.<raw body>`, the bytes the console signs. */
  function Message(timestamp: string, body: seq<Byte>): (message: seq<Byte>)
    requires IsTimestamp(timestamp)
    ensures |message| == |timestamp| + 1 + |body| && message[|timestamp| + 1..] == body
    ensures message[|timestamp|] as int == '.' as int
    ensures forall i :: 0 <= i < |timestamp| ==> message[i] as int == timestamp[i] as int
  {
    Ascii(timestamp) + ['.' as int as Byte] + body
  }

  /** Digits contain no dot, so the signed bytes determine timestamp text and body. */
  lemma MessageInjective(t: string, body: seq<Byte>, t': string, body': seq<Byte>)
    requires IsTimestamp(t) && IsTimestamp(t') && Message(t, body) == Message(t', body')
    ensures t == t' && body == body'
  {
    var m := Message(t, body);
    if |t| < |t'| {
      DotIsNoDigit(t, body, t', body');
    } else if |t'| < |t| {
      DotIsNoDigit(t', body', t, body);
    } else {
      assert forall i :: 0 <= i < |t| ==> t[i] as int == m[i] as int == t'[i] as int;
      assert body == m[|t| + 1..] == body';
    }
  }

  lemma DotIsNoDigit(t: string, body: seq<Byte>, t': string, body': seq<Byte>)
    requires IsTimestamp(t) && IsTimestamp(t') && |t| < |t'|
    ensures Message(t, body) != Message(t', body')
  {
    assert Message(t, body)[|t|] == '.' as int as Byte;
    assert Message(t', body')[|t|] as int == t'[|t|] as int && t'[|t|] in t';
  }

  function ToInt(digits: string): nat
    requires forall c :: c in digits ==> IsDigit(c)
  {
    if digits == "" then 0
    else
      assert digits[|digits| - 1] in digits && IsDigit(digits[|digits| - 1]);
      10 * ToInt(digits[..|digits| - 1]) + (digits[|digits| - 1] as int - '0' as int)
  }

  function Pow10(n: nat): nat {
    if n == 0 then 1 else 10 * Pow10(n - 1)
  }

  predicate AllDigits(text: string) {
    forall c :: c in text ==> IsDigit(c)
  }

  /** Place value: what comes before counts ten times per digit that follows. */
  lemma {:induction false} ToIntOfConcat(a: string, b: string)
    requires AllDigits(a) && AllDigits(b)
    ensures AllDigits(a + b) && ToInt(a + b) == ToInt(a) * Pow10(|b|) + ToInt(b)
  {
    if b == "" {
      assert a + b == a;
    } else {
      var front, last := b[..|b| - 1], b[|b| - 1];
      assert AllDigits(front) && last in b && (a + b)[..|a + b| - 1] == a + front;
      ToIntOfConcat(a, front);
      Distribute(ToInt(a), Pow10(|front|), ToInt(front));
    }
  }

  lemma Distribute(a: nat, p: nat, b: nat)
    ensures 10 * (a * p + b) == a * (10 * p) + 10 * b
  {
  }

  lemma {:induction false} DecimalIsDigits(n: nat)
    ensures AllDigits(Decimal(n)) && ToInt(Decimal(n)) == n
  {
    var d := Decimal(n);
    assert AllDigits(d);
    if n >= 10 {
      DecimalIsDigits(n / 10);
      assert d[..|d| - 1] == Decimal(n / 10);
    }
  }

  predicate AllZeros(text: string) {
    forall c :: c in text ==> c == '0'
  }

  /** The number a text denotes: its decimal digits, and leading zeros change nothing. */
  lemma {:induction false} ToIntOfNumber(zeros: string, t: nat)
    requires AllZeros(zeros)
    ensures AllDigits(zeros + Decimal(t)) && ToInt(zeros + Decimal(t)) == t
  {
    DecimalIsDigits(t);
    ZerosAreZero(zeros);
    ToIntOfConcat(zeros, Decimal(t));
  }

  lemma {:induction false} ZerosAreZero(zeros: string)
    requires AllZeros(zeros)
    ensures AllDigits(zeros) && ToInt(zeros) == 0
  {
    if zeros != "" {
      var front := zeros[..|zeros| - 1];
      forall c | c in front ensures c == '0' {
        assert c in zeros;
      }
      assert zeros[|zeros| - 1] in zeros;
      ZerosAreZero(front);
    }
  }

  /** Every digit text is some number's, with leading zeros. */
  lemma {:induction false} DigitsAreNumber(text: string) returns (zeros: string, t: nat)
    requires text != "" && AllDigits(text)
    ensures AllZeros(zeros) && text == zeros + Decimal(t)
  {
    var n := |text| - 1;
    assert text[n] in text;
    var d := text[n] as int - '0' as int;
    assert Decimal(d) == [text[n]] && text == text[..n] + [text[n]];
    if n == 0 {
      zeros, t := "", d;
    } else {
      var m;
      zeros, m := DigitsAreNumber(text[..n]);
      if m == 0 {
        zeros, t := zeros + "0", d;
      } else {
        t := 10 * m + d;
        assert Decimal(t) == Decimal(m) + [text[n]];
      }
    }
  }

  datatype Reason = Malformed | NoSecret | BadSignature | Stale | Future | Replayed | CacheFull

  datatype Checked = Authentic(timestamp: nat, digest: string) | Rejected(reason: Reason)

  predicate IsStale(timestamp: nat, now: real) {
    now - timestamp as real > MAX_SIGNATURE_AGE_SECONDS as real
  }

  predicate IsFuture(timestamp: nat, now: real) {
    timestamp as real - now > MAX_FUTURE_SKEW_SECONDS as real
  }

  /** One request as the receiver sees it: the secret is read from the entry per request. */
  datatype Delivery = Delivery(header: string, body: seq<Byte>, secret: Option<string>, now: real)

  /** `verify_delivery`, after the handler's check for a stored secret. */
  function Verify(mac: Mac, d: Delivery): (checked: Checked)
    ensures checked.Rejected? ==> checked.reason !in {Replayed, CacheFull}
    ensures checked.Authentic? ==> !IsStale(checked.timestamp, d.now) && !IsFuture(checked.timestamp, d.now)
  {
    if d.secret == None || d.secret == Some("") then Rejected(NoSecret)
    else
      var sig := ParseHeader(d.header);
      if sig.None? then Rejected(Malformed)
      else if mac(d.secret.value, Message(sig.value.timestamp, d.body)) != sig.value.digest then Rejected(BadSignature)
      else
        var timestamp := ToInt(sig.value.timestamp);
        if IsStale(timestamp, d.now) then Rejected(Stale)
        else if IsFuture(timestamp, d.now) then Rejected(Future)
        else Authentic(timestamp, sig.value.digest)
  }

  /** What the console sends for a body. */
  function Signed(mac: Mac, secret: string, timestamp: string, body: seq<Byte>, now: real): Delivery
    requires IsTimestamp(timestamp)
  {
    Delivery(Header(Signature(timestamp, mac(secret, Message(timestamp, body)))), body, Some(secret), now)
  }

  /** What a timestamp text may look like: a number, perhaps with leading zeros, of at most twelve digits. */
  predicate Denotes(text: string, t: nat) {
    |text| <= MAX_TIMESTAMP_DIGITS && exists n :: 0 <= n <= |text| && AllZeros(text[..n]) && text[n..] == Decimal(t)
  }

  lemma DenotedNumber(text: string, t: nat)
    requires Denotes(text, t)
    ensures IsTimestamp(text) && ToInt(text) == t
  {
    hide ToInt, AllZeros, IsDigit;
    var n :| 0 <= n <= |text| && AllZeros(text[..n]) && text[n..] == Decimal(t);
    ToIntOfNumber(text[..n], t);
    assert text == text[..n] + Decimal(t);
  }

  lemma TimestampDenotes(text: string) returns (t: nat)
    requires IsTimestamp(text)
    ensures Denotes(text, t)
  {
    var zeros;
    zeros, t := DigitsAreNumber(text);
    assert text[..|zeros|] == zeros && text[|zeros|..] == Decimal(t);
  }

  /**
   * A delivery signed under the stored secret for time `t`: stale more than 300 seconds
   * after it, from the future more than 60 before it, and authentic otherwise.
   */
  lemma SignedIsAuthentic(mac: Mac, secret: string, timestamp: string, t: nat, body: seq<Byte>, now: real)
    requires secret != "" && Denotes(timestamp, t)
    ensures IsTimestamp(timestamp)
    ensures var digest := mac(secret, Message(timestamp, body));
      IsDigest(digest) ==>
        Verify(mac, Signed(mac, secret, timestamp, body, now))
        == if now - t as real > 300.0 then Rejected(Stale)
           else if t as real - now > 60.0 then Rejected(Future)
           else Authentic(t, digest)
    ensures Signed(mac, secret, timestamp, body, now).now == now
  {
    DenotedNumber(timestamp, t);
    hide ParseHeader, Header, IsDigest, ToInt, IsTimestamp, Denotes;
    if IsDigest(mac(secret, Message(timestamp, body))) {
      HeaderRoundTrip(Signature(timestamp, mac(secret, Message(timestamp, body))), "");
    }
  }

  /** Which of the checks before freshness a delivery fails. */
  lemma FirstFailure(mac: Mac, d: Delivery)
    ensures Verify(mac, d) == Rejected(NoSecret) <==> d.secret in {None, Some("")}
    ensures Verify(mac, d) == Rejected(Malformed) <==> d.secret !in {None, Some("")} && ParseHeader(d.header).None?
    ensures Verify(mac, d) == Rejected(BadSignature)
            <==> d.secret !in {None, Some("")} && ParseHeader(d.header).Some?
                 && var sig := ParseHeader(d.header).value; mac(d.secret.value, Message(sig.timestamp, d.body)) != sig.digest
  {
    hide ParseHeader, Message, ToInt;
  }

  /** The same request: same secret, same timestamp text, same body. */
  predicate SameRequest(d: Delivery, e: Delivery) {
    && d.secret == e.secret && d.body == e.body
    && ParseHeader(d.header).Some? && ParseHeader(e.header).Some?
    && ParseHeader(d.header).value.timestamp == ParseHeader(e.header).value.timestamp
  }

  /** The two deliveries do not share a digest by accident: it stands for one secret and one message. */
  predicate NoCollision(mac: Mac, d: Delivery, e: Delivery) {
    var s, t := ParseHeader(d.header), ParseHeader(e.header);
    d.secret.Some? && e.secret.Some? && s.Some? && t.Some? ==>
      var m, n := Message(s.value.timestamp, d.body), Message(t.value.timestamp, e.body);
      mac(d.secret.value, m) == mac(e.secret.value, n) ==> d.secret == e.secret && m == n
  }

  /** Authentic deliveries of one request carry one digest; unless two requests collide, only they do. */
  lemma DigestIdentifiesRequest(mac: Mac, d: Delivery, e: Delivery)
    ensures Verify(mac, d).Authentic? && Verify(mac, e).Authentic? ==>
              && (SameRequest(d, e) ==> Verify(mac, d) == Verify(mac, e))
              && (NoCollision(mac, d, e) && Verify(mac, d).digest == Verify(mac, e).digest ==> SameRequest(d, e))
  {
    hide IsTimestamp, IsDigest, ToInt, ParseHeader, Message, Verify;
    if Verify(mac, d).Authentic? && Verify(mac, e).Authentic? {
      AuthenticIsSigned(mac, d);
      AuthenticIsSigned(mac, e);
      var s, t := ParseHeader(d.header).value, ParseHeader(e.header).value;
      if NoCollision(mac, d, e) && s.digest == t.digest {
        MessageInjective(s.timestamp, d.body, t.timestamp, e.body);
      }
    }
  }

  lemma AuthenticIsSigned(mac: Mac, d: Delivery)
    ensures Verify(mac, d).Authentic? ==>
              && d.secret.Some? && ParseHeader(d.header).Some?
              && var timestamp := ParseHeader(d.header).value.timestamp;
              && Verify(mac, d) == Authentic(ToInt(timestamp), mac(d.secret.value, Message(timestamp, d.body)))
              && Verify(mac, d).digest == ParseHeader(d.header).value.digest
  {
    hide ParseHeader, ToInt, Message;
  }

  // ---------- The replay cache ----------

  /** Live digests and the second after which each may go. */
  type Expiry = map<string, int>

  function Purged(expiry: Expiry, now: real): Expiry {
    map digest | digest in expiry && !(expiry[digest] as real < now) :: expiry[digest]
  }

  /** Why the cache refuses the digest, if it does. */
  function Refusal(expiry: Expiry, size: nat, digest: string, now: real): (refusal: Option<Reason>)
    ensures refusal.Some? ==> refusal.value in {Replayed, CacheFull}
  {
    var live := Purged(expiry, now);
    if digest in live then Some(Replayed)
    else if |live| >= size then Some(CacheFull)
    else None
  }

  function Checkin(expiry: Expiry, size: nat, digest: string, timestamp: nat, now: real): Expiry {
    var live := Purged(expiry, now);
    if Refusal(expiry, size, digest, now).None? then live[digest := timestamp + MAX_SIGNATURE_AGE_SECONDS] else live
  }

  class ReplayCache {
    const size: nat
    var expiry: Expiry

    constructor (size: nat := 512)
      ensures this.size == size && expiry == map[]
    {
      this.size := size;
      expiry := map[];
    }

    /** Admits a digest (None), or returns why not. */
    method Check(digest: string, timestamp: nat, now: real) returns (refusal: Option<Reason>)
      modifies this
      ensures refusal == Refusal(old(expiry), size, digest, now)
      ensures expiry == Checkin(old(expiry), size, digest, timestamp, now)
    {
      var items := expiry.Keys;
      while items != {}
        invariant items <= expiry.Keys <= old(expiry).Keys
        invariant forall d :: d in expiry ==> expiry[d] == old(expiry)[d] && (d !in items ==> !(expiry[d] as real < now))
        invariant forall d :: d in old(expiry) && !(old(expiry)[d] as real < now) ==> d in expiry
        decreases items
      {
        var seen :| seen in items;
        items := items - {seen};
        if expiry[seen] as real < now {
          expiry := expiry - {seen};
        }
      }
      assert expiry == Purged(old(expiry), now);
      if digest in expiry {
        return Some(Replayed);
      }
      if |expiry| >= size {
        return Some(CacheFull);
      }
      expiry := expiry[digest := timestamp + MAX_SIGNATURE_AGE_SECONDS];
      return None;
    }
  }

  // ---------- The receiver ----------

  datatype Status = OK | BadRequest | Unauthorized | RequestTimeout | TooLarge | ServiceUnavailable

  function StatusOf(reason: Reason): Status {
    match reason
    case Malformed => BadRequest
    case CacheFull => ServiceUnavailable
    case _ => Unauthorized
  }

  /** What reading the body came to. */
  datatype BodyRead = Body(bytes: seq<Byte>) | BodyTooLarge | BodyTimeout

  /**
   * The handler of `_make_handler`. `parses` tells whether the body is a JSON object.
   * Only an admitted delivery reaches the dispatcher, and nothing else touches the cache.
   */
  method Handle(mac: Mac, replay: ReplayCache, header: string, read: BodyRead, secret: Option<string>, now: real,
                parses: seq<Byte> -> bool)
    returns (status: Status, dispatched: bool)
    modifies replay
    ensures !read.Body? ==> !dispatched && replay.expiry == old(replay.expiry)
    ensures status == RequestTimeout <==> read.BodyTimeout?
    ensures status == TooLarge <==> read.BodyTooLarge?
    ensures read.Body? ==>
              var d := Delivery(header, read.bytes, secret, now);
              && replay.expiry == Next(replay.size, old(replay.expiry), Arriving(mac, d))
              && (dispatched <==> Admits(replay.size, old(replay.expiry), Arriving(mac, d)) && parses(read.bytes))
              && (status == OK <==> dispatched)
              && (status == ServiceUnavailable <==>
                    Verify(mac, d).Authentic? && Refusal(old(replay.expiry), replay.size, Verify(mac, d).digest, now) == Some(CacheFull))
              // A header that cannot be read or an admitted body that is no JSON object; the rest is unauthorized.
              && (status == BadRequest <==>
                    || Verify(mac, d) == Rejected(Malformed)
                    || (Admits(replay.size, old(replay.expiry), Arriving(mac, d)) && !parses(read.bytes)))
              && (status == Unauthorized <==>
                    || Verify(mac, d) in {Rejected(NoSecret), Rejected(BadSignature), Rejected(Stale), Rejected(Future)}
                    || (Verify(mac, d).Authentic?
                        && Refusal(old(replay.expiry), replay.size, Verify(mac, d).digest, now) == Some(Replayed)))
  {
    hide Verify, Refusal, Checkin, Message, ParseHeader;
    match read {
      case BodyTimeout => return RequestTimeout, false;
      case BodyTooLarge => return TooLarge, false;
      case Body(bytes) =>
        var checked := Verify(mac, Delivery(header, bytes, secret, now));
        if checked.Rejected? {
          return StatusOf(checked.reason), false;
        }
        var refusal := replay.Check(checked.digest, checked.timestamp, now);
        if refusal.Some? {
          return StatusOf(refusal.value), false;
        }
        if !parses(bytes) {
          return BadRequest, false;
        }
        return OK, true;
    }
  }

  /** A delivery as the cache sees it: the verdict of its check, and when. */
  datatype Arrival = Arrival(checked: Checked, now: real)

  function Arriving(mac: Mac, d: Delivery): Arrival {
    Arrival(Verify(mac, d), d.now)
  }

  predicate Admits(size: nat, expiry: Expiry, a: Arrival) {
    a.checked.Authentic? && Refusal(expiry, size, a.checked.digest, a.now).None?
  }

  /** The cache after one arrival; only an authentic one reaches it. */
  function Next(size: nat, expiry: Expiry, a: Arrival): Expiry {
    match a.checked
    case Authentic(timestamp, digest) => Checkin(expiry, size, digest, timestamp, a.now)
    case Rejected(_) => expiry
  }

  // ---------- Runs ----------

  // A run is every delivery of one entry since Home Assistant started. Reloads keep the
  // cache, so they do not show; secrets may change between deliveries.

  /** The cache after the first `n` arrivals. */
  function CacheAfter(size: nat, run: seq<Arrival>, n: nat): Expiry
    requires n <= |run|
  {
    if n == 0 then map[] else Next(size, CacheAfter(size, run, n - 1), run[n - 1])
  }

  predicate AdmittedAt(size: nat, run: seq<Arrival>, i: nat)
    requires i < |run|
  {
    Admits(size, CacheAfter(size, run, i), run[i])
  }

  predicate SameDigest(a: Arrival, b: Arrival) {
    a.checked.Authentic? && b.checked.Authentic? && a.checked.digest == b.checked.digest
  }

  /** Before `n`, an authentic arrival came at a time by which the timestamp of arrival `i` was stale. */
  ghost predicate Lapsed(run: seq<Arrival>, i: nat, n: nat)
    requires i < |run| && run[i].checked.Authentic? && n <= |run|
  {
    exists k :: i < k < n && Outdates(run[k], run[i])
  }

  predicate Outdates(later: Arrival, a: Arrival)
    requires a.checked.Authentic?
  {
    later.checked.Authentic? && IsStale(a.checked.timestamp, later.now)
  }

  /** An admitted digest stays cached until it lapses. */
  lemma {:induction false} Remembered(size: nat, run: seq<Arrival>, i: nat, n: nat)
    requires i < n <= |run| && AdmittedAt(size, run, i) && !Lapsed(run, i, n)
    ensures var v := run[i].checked; var cache := CacheAfter(size, run, n);
      v.digest in cache && cache[v.digest] == v.timestamp + MAX_SIGNATURE_AGE_SECONDS
  {
    if n > i + 1 {
      assert !Lapsed(run, i, n - 1) && !Outdates(run[n - 1], run[i]);
      Remembered(size, run, i, n - 1);
    }
  }

  /** Everything cached was admitted, has not lapsed since, and expires with its own timestamp. */
  lemma {:induction false} CachedWasAdmitted(size: nat, run: seq<Arrival>, n: nat, digest: string) returns (i: nat)
    requires n <= |run| && digest in CacheAfter(size, run, n)
    ensures i < n && AdmittedAt(size, run, i) && !Lapsed(run, i, n)
    ensures var v := run[i].checked;
      v.digest == digest && CacheAfter(size, run, n)[digest] == v.timestamp + MAX_SIGNATURE_AGE_SECONDS
  {
    if AdmittedAt(size, run, n - 1) && run[n - 1].checked.digest == digest {
      i := n - 1;
    } else {
      i := CachedWasAdmitted(size, run, n - 1, digest);
    }
  }

  /**
   * An authentic arrival is refused as a replay exactly if an earlier admission of its
   * digest has not lapsed, whatever the clock did.
   */
  lemma RefusedUntilLapsed(size: nat, run: seq<Arrival>, j: nat)
    requires j < |run| && run[j].checked.Authentic?
    ensures Refusal(CacheAfter(size, run, j), size, run[j].checked.digest, run[j].now) == Some(Replayed)
            <==> exists i :: 0 <= i < j && AdmittedAt(size, run, i) && SameDigest(run[i], run[j]) && !Lapsed(run, i, j + 1)
  {
    var cache := CacheAfter(size, run, j);
    if run[j].checked.digest in Purged(cache, run[j].now) {
      var i := CachedWasAdmitted(size, run, j, run[j].checked.digest);
      assert !Lapsed(run, i, j + 1);
    }
    if i :| 0 <= i < j && AdmittedAt(size, run, i) && SameDigest(run[i], run[j]) && !Lapsed(run, i, j + 1) {
      assert !Lapsed(run, i, j) && !Outdates(run[j], run[i]);
      Remembered(size, run, i, j);
    }
  }

  /** A digest once admitted is admitted again exactly when its last admission has lapsed and there is room. */
  lemma AdmittedAgain(size: nat, run: seq<Arrival>, i: nat, j: nat)
    requires i < j < |run| && AdmittedAt(size, run, i) && SameDigest(run[i], run[j])
    requires forall k :: i < k < j && AdmittedAt(size, run, k) ==> !SameDigest(run[k], run[j])
    ensures AdmittedAt(size, run, j)
            <==> Lapsed(run, i, j + 1) && |Purged(CacheAfter(size, run, j), run[j].now)| < size
  {
    hide CacheAfter, Lapsed;
    RefusedUntilLapsed(size, run, j);
    forall h | 0 <= h < i && AdmittedAt(size, run, h) && SameDigest(run[h], run[j]) ensures Lapsed(run, h, j + 1) {
      LapsedBeforeNext(size, run, h, i, j + 1);
    }
  }

  lemma LapsedBeforeNext(size: nat, run: seq<Arrival>, h: nat, i: nat, n: nat)
    requires h < i < n <= |run| && AdmittedAt(size, run, h) && AdmittedAt(size, run, i) && SameDigest(run[h], run[i])
    ensures Lapsed(run, h, n)
  {
    hide CacheAfter;
    RefusedUntilLapsed(size, run, i);
    var k :| h < k < i + 1 && Outdates(run[k], run[h]);
  }

  /** The memory bound holds throughout. */
  lemma {:induction false} CacheBounded(size: nat, run: seq<Arrival>, n: nat)
    requires n <= |run|
    ensures |CacheAfter(size, run, n)| <= size
  {
    if n > 0 {
      CacheBounded(size, run, n - 1);
      PurgedSmaller(CacheAfter(size, run, n - 1), run[n - 1].now);
    }
  }

  lemma PurgedSmaller(expiry: Expiry, now: real)
    ensures |Purged(expiry, now)| <= |expiry|
  {
    var live := Purged(expiry, now);
    assert live.Keys <= expiry.Keys;
    SubsetSmaller(live.Keys, expiry.Keys);
  }

  lemma SubsetSmaller<T>(a: set<T>, b: set<T>)
    requires a <= b
    ensures |a| <= |b|
  {
    assert b == a + (b - a);
  }

  /** Whatever is authentic was checked to be neither stale nor from the future. */
  ghost predicate InWindow(run: seq<Arrival>) {
    forall i :: 0 <= i < |run| && run[i].checked.Authentic? ==>
                  !IsStale(run[i].checked.timestamp, run[i].now) && !IsFuture(run[i].checked.timestamp, run[i].now)
  }

  /** After more than 360 seconds without an admission, any authentic arrival is admitted. */
  lemma ReopensAfterSilence(size: nat, run: seq<Arrival>, j: nat)
    requires 0 < size && j < |run| && InWindow(run) && run[j].checked.Authentic?
    requires forall i :: 0 <= i < j && AdmittedAt(size, run, i) ==> run[i].now + 360.0 < run[j].now
    ensures AdmittedAt(size, run, j)
  {
    var cache := CacheAfter(size, run, j);
    forall digest | digest in cache ensures cache[digest] as real < run[j].now {
      var i := CachedWasAdmitted(size, run, j, digest);
    }
    assert Purged(cache, run[j].now) == map[];
  }

  // ---------- Requests ----------

  function Arrivals(mac: Mac, run: seq<Delivery>): (arrivals: seq<Arrival>)
    ensures |arrivals| == |run| && InWindow(arrivals)
  {
    hide ParseHeader, IsStale, IsFuture;
    seq(|run|, i requires 0 <= i < |run| => Arriving(mac, run[i]))
  }

  ghost predicate ClockNeverRunsBack(run: seq<Delivery>) {
    forall i, j :: 0 <= i < j < |run| ==> run[i].now <= run[j].now
  }

  /** While a request is authentic, its earlier admission lapses only through a clock that was ahead and ran back. */
  lemma LapseNeedsClockBack(mac: Mac, run: seq<Delivery>, i: nat, j: nat)
    requires i < j < |run|
    ensures var a := Arrivals(mac, run);
      a[i].checked.Authentic? && a[i].checked == a[j].checked && Lapsed(a, i, j + 1) ==>
        exists k :: i < k < j && run[k].now > run[j].now
  {
    hide Verify;
    var a := Arrivals(mac, run);
    if a[i].checked.Authentic? && a[i].checked == a[j].checked && Lapsed(a, i, j + 1) {
      var k :| i < k < j + 1 && Outdates(a[k], a[i]);
      assert !IsStale(a[j].checked.timestamp, a[j].now) && k != j;
      assert run[k].now > run[j].now;
    }
  }

  /**
   * An authentic delivery that collides with none before is refused as a replay exactly if
   * the same request was admitted before and has not lapsed since.
   */
  lemma RefusedAsReplay(mac: Mac, size: nat, run: seq<Delivery>, j: nat)
    requires j < |run|
    ensures var a := Arrivals(mac, run);
      a[j].checked.Authentic? && (forall i :: 0 <= i < j ==> NoCollision(mac, run[i], run[j])) ==>
        (Refusal(CacheAfter(size, a, j), size, a[j].checked.digest, run[j].now) == Some(Replayed)
         <==> exists i :: 0 <= i < j && AdmittedAt(size, a, i) && SameRequest(run[i], run[j]) && !Lapsed(a, i, j + 1))
  {
    hide Verify, SameRequest, NoCollision, Lapsed, CacheAfter, Refusal;
    var a := Arrivals(mac, run);
    if a[j].checked.Authentic? && forall i :: 0 <= i < j ==> NoCollision(mac, run[i], run[j]) {
      RefusedUntilLapsed(size, a, j);
      forall i | 0 <= i < j && AdmittedAt(size, a, i) ensures SameRequest(run[i], run[j]) <==> SameDigest(a[i], a[j]) {
        DigestIdentifiesRequest(mac, run[i], run[j]);
      }
    }
  }

  /** With a clock that never runs back, no request is ever admitted twice. */
  lemma AdmittedOnce(mac: Mac, size: nat, run: seq<Delivery>, i: nat, j: nat)
    requires i < j < |run| && ClockNeverRunsBack(run)
    ensures var a := Arrivals(mac, run);
      AdmittedAt(size, a, i) && AdmittedAt(size, a, j) ==>
        && !SameRequest(run[i], run[j])
        && (NoCollision(mac, run[i], run[j]) ==> !SameDigest(a[i], a[j]))
  {
    hide Verify, SameRequest, NoCollision, Lapsed, CacheAfter, Refusal;
    var a := Arrivals(mac, run);
    if AdmittedAt(size, a, i) && AdmittedAt(size, a, j) {
      DigestIdentifiesRequest(mac, run[i], run[j]);
      if SameDigest(a[i], a[j]) {
        LapsedBeforeNext(size, a, i, j, j + 1);
        LapseNeedsClockBack(mac, run, i, j);
      }
    }
  }

  /** A request is admitted twice: the clock showed 400, past its expiry, and then ran back to 100. */
  lemma ReplayAfterClockRanBack(mac: Mac, size: nat, secret: string, body: seq<Byte>)
    requires size >= 2 && secret != ""
    ensures IsTimestamp("0") && IsTimestamp("400")
    ensures var early, late := mac(secret, Message("0", body)), mac(secret, Message("400", body));
      var run := [Signed(mac, secret, "0", body, 0.0), Signed(mac, secret, "400", body, 400.0), Signed(mac, secret, "0", body, 100.0)];
      var a := Arrivals(mac, run);
      IsDigest(early) && IsDigest(late) && early != late ==>
        && AdmittedAt(size, a, 0) && AdmittedAt(size, a, 2) && SameRequest(run[0], run[2]) && Lapsed(a, 0, 3)
  {
    SampleTimes();
    hide IsTimestamp, IsDigest, Message, Signed, Verify, SameRequest, CacheAfter, Lapsed, Denotes;
    var run := [Signed(mac, secret, "0", body, 0.0), Signed(mac, secret, "400", body, 400.0), Signed(mac, secret, "0", body, 100.0)];
    var early, late := mac(secret, Message("0", body)), mac(secret, Message("400", body));
    if IsDigest(early) && IsDigest(late) && early != late {
      SignedIsAuthentic(mac, secret, "0", 0, body, 0.0);
      SignedIsAuthentic(mac, secret, "400", 400, body, 400.0);
      SignedIsAuthentic(mac, secret, "0", 0, body, 100.0);
      SampleRun(size, Arrivals(mac, run));
      SignedAlike(mac, secret, "0", body, 0.0, 100.0);
    }
  }

  lemma SignedAlike(mac: Mac, secret: string, timestamp: string, body: seq<Byte>, now: real, now': real)
    requires IsTimestamp(timestamp) && IsDigest(mac(secret, Message(timestamp, body)))
    ensures SameRequest(Signed(mac, secret, timestamp, body, now), Signed(mac, secret, timestamp, body, now'))
  {
    hide ParseHeader, Header, IsDigest, IsTimestamp;
    HeaderRoundTrip(Signature(timestamp, mac(secret, Message(timestamp, body))), "");
  }

  lemma SampleTimes()
    ensures IsTimestamp("0") && IsTimestamp("400") && Denotes("0", 0) && Denotes("400", 400)
  {
    assert Decimal(4) == "4" && Decimal(40) == "40";
    assert "0"[0..] == Decimal(0) && "400"[0..] == Decimal(400);
  }

  lemma SampleRun(size: nat, run: seq<Arrival>)
    requires size >= 2 && |run| == 3 && run[0].checked.Authentic? && run[1].checked.Authentic?
    requires run[0].checked == run[2].checked && run[0].checked.digest != run[1].checked.digest
    requires run[0].checked.timestamp == 0 && run[1].checked.timestamp == 400
    requires run[0].now == 0.0 && run[1].now == 400.0 && run[2].now == 100.0
    ensures AdmittedAt(size, run, 0) && AdmittedAt(size, run, 2) && Lapsed(run, 0, 3)
  {
    var first, second := run[0].checked.digest, run[1].checked.digest;
    assert CacheAfter(size, run, 0) == map[];
    assert CacheAfter(size, run, 1) == map[first := 300];
    assert Purged(CacheAfter(size, run, 1), 400.0) == map[];
    assert CacheAfter(size, run, 2) == map[second := 700];
    assert Purged(CacheAfter(size, run, 2), 100.0) == map[second := 700];
    assert Outdates(run[1], run[0]);
  }
}

/** Console namespaces and the logical-site identities built from them. */
module SiteIdentity {
  import opened Text

  // ---------- Namespaces ----------

  /** Lower-cases and turns dashes into colons; deliberately validates nothing. */
  function NormalizeMac(mac: string): Option<string> {
    if mac == "" then None else Some(Canonical(mac))
  }

  function Canonical(mac: string): (r: string)
    ensures |r| == |mac|
    ensures forall i :: 0 <= i < |mac| ==> r[i] == CanonicalChar(mac[i])
    ensures forall i :: 0 <= i < |mac| ==> r[i] == if mac[i] == '-' then ':' else LowerChar(mac[i])
  {
    seq(|mac|, i requires 0 <= i < |mac| => CanonicalChar(mac[i]))
  }

  function CanonicalChar(c: char): char {
    var lower := LowerChar(c);
    if lower == '-' then ':' else lower
  }

  predicate Plain(text: string) {
    forall c :: c in text ==> !IsSpace(c) && IsPrintable(c)
  }

  /** `normalize_console_namespace`; a non-string value or credential is None. */
  function NormalizeNamespace(value: Option<string>, credentials: seq<Option<string>>): Option<string> {
    if value.None? then None
    else
      var trimmed := Strip(value.value);
      if trimmed == "" || !Plain(trimmed) then None
      else if exists c :: c in credentials && c.Some? && c.value != "" && c.value == value.value then None
      else
        var namespace := NormalizeMac(trimmed);
        if exists c :: c in credentials && c.Some? && c.value != "" && NormalizeMac(Strip(c.value)) == namespace
        then None
        else namespace
  }

  /** A namespace in the one stored form. */
  predicate IsNamespace(namespace: string) {
    NormalizeNamespace(Some(namespace), []) == Some(namespace)
  }

  /** Whatever the normalizer accepts is already in normal form. */
  lemma NormalizedIsNamespace(value: Option<string>, credentials: seq<Option<string>>)
    ensures var n := NormalizeNamespace(value, credentials);
      n.Some? ==> IsNamespace(n.value) && n.value != "" && Plain(n.value)
  {
    var n := NormalizeNamespace(value, credentials);
    if n.Some? {
      CanonicalOfPlain(Strip(value.value));
      StripOfSpaceFree(n.value);
    }
  }

  lemma CanonicalOfPlain(text: string)
    requires Plain(text)
    ensures Plain(Canonical(text)) && Canonical(Canonical(text)) == Canonical(text)
  {
    var r := Canonical(text);
    forall i | 0 <= i < |r| ensures !IsSpace(r[i]) && IsPrintable(r[i]) && CanonicalChar(r[i]) == r[i] {
      assert text[i] in text;
      CanonicalCharOfPlain(text[i]);
    }
  }

  lemma CanonicalCharOfPlain(c: char)
    requires !IsSpace(c) && IsPrintable(c)
    ensures var r := CanonicalChar(c); !IsSpace(r) && IsPrintable(r) && CanonicalChar(r) == r
  {
  }

  /** The credential is the value itself, or has its normal form. */
  predicate Conflicts(secret: string, value: string, core: string) {
    secret != "" && (secret == value || Canonical(Strip(secret)) == Canonical(core))
  }

  /** A printable, space-free core is accepted in lower case with colons, exactly unless a credential conflicts. */
  lemma NamespaceOfPlain(before: string, core: string, after: string, credentials: seq<Option<string>>)
    requires AllSpace(before) && AllSpace(after) && core != "" && Plain(core)
    ensures var value := before + core + after;
      NormalizeNamespace(Some(value), credentials)
      == if exists secret :: Some(secret) in credentials && Conflicts(secret, value, core) then None else Some(Canonical(core))
  {
    var value := before + core + after;
    assert Trimmed(core) by {
      assert core[0] in core && core[|core| - 1] in core;
    }
    hide Strip, Plain, AllSpace, Conflicts, NormalizeNamespace, IsSpace;
    StripOfCore(before, core, after);
    NamespaceOfCore(value, core, credentials);
    if secret :| Some(secret) in credentials && Conflicts(secret, value, core) {
      assert ConflictsWith(Some(secret), value, core);
    }
    if c :| c in credentials && ConflictsWith(c, value, core) {
      assert Some(c.value) in credentials;
    }
  }

  predicate ConflictsWith(credential: Option<string>, value: string, core: string) {
    credential.Some? && Conflicts(credential.value, value, core)
  }

  lemma NamespaceOfCore(value: string, core: string, credentials: seq<Option<string>>)
    requires Strip(value) == core != "" && Plain(core)
    ensures NormalizeNamespace(Some(value), credentials)
            == if exists c :: c in credentials && ConflictsWith(c, value, core) then None else Some(Canonical(core))
  {
    hide Strip, Plain, Canonical;
    CanonicalFilled(core);
    if c :| c in credentials && ConflictsWith(c, value, core) {
      assert c.value == value || NormalizeMac(Strip(c.value)) == NormalizeMac(core);
    } else {
      forall c | c in credentials && c.Some? && c.value != "" ensures NormalizeMac(Strip(c.value)) != NormalizeMac(core) {
        assert !ConflictsWith(c, value, core);
      }
    }
  }

  lemma CanonicalFilled(text: string)
    requires text != ""
    ensures Canonical(text) != "" && Canonical("") == ""
  {
  }

  /** Anything else is no namespace. */
  lemma NoNamespace(before: string, core: string, after: string, credentials: seq<Option<string>>)
    requires AllSpace(before) && AllSpace(after) && Trimmed(core) && (core == "" || !Plain(core))
    ensures NormalizeNamespace(Some(before + core + after), credentials) == None
  {
    hide Strip, Plain, AllSpace;
    StripOfCore(before, core, after);
  }

  /** Neither the raw value of a credential nor its normalized form gets through. */
  lemma NamespaceIsNoCredential(value: Option<string>, credentials: seq<Option<string>>, secret: string)
    requires Some(secret) in credentials && secret != ""
    requires NormalizeNamespace(value, credentials).Some?
    ensures value != Some(secret)
    ensures NormalizeNamespace(value, credentials) != NormalizeMac(Strip(secret))
  {
  }

  // ---------- Site identities ----------

  const SUFFIXES: map<string, set<string>> := map[
    "sensor" := {
      "site_total_clients", "site_wired_clients", "site_wireless_clients",
      "internet_download_1h", "internet_upload_1h", "internet_download_1d", "internet_upload_1d",
      "internet_download_1w", "internet_upload_1w", "internet_download_1m", "internet_upload_1m",
      "latest_voucher_code", "latest_voucher_expiration", "active_vouchers"
    },
    "number" := {
      "voucher_duration", "voucher_guest_limit", "voucher_download_limit",
      "voucher_upload_limit", "voucher_data_limit"
    },
    "button" := {"generate_voucher"},
    "event" := {"network_rule_changes"},
    "image" := {"voucher_qr_code"}
  ]

  /** `{site}_{suffix}`, the identity from before namespaces. */
  function LegacyUniqueId(site: string, suffix: string): string {
    site + "_" + suffix
  }

  function SiteUniqueId(namespace: string, site: string, suffix: string): string {
    namespace + "_" + LegacyUniqueId(site, suffix)
  }

  /** `build_site_unique_id`: None stands for its ValueError. */
  function BuildSiteUniqueId(namespace: string, site: string, suffix: string): Option<string> {
    if IsNamespace(namespace) then Some(SiteUniqueId(namespace, site, suffix)) else None
  }

  /** The first letters of a domain's suffixes. */
  function Initials(domain: string): set<char> {
    match domain
    case "sensor" => {'s', 'i', 'l', 'a'}
    case "number" | "image" => {'v'}
    case "button" => {'g'}
    case "event" => {'n'}
    case _ => {}
  }

  /** No word of the key after its first starts with one of the letters. */
  predicate LaterWordsAvoid(key: string, letters: set<char>) {
    forall i :: 0 < i < |key| && key[i - 1] == '_' ==> key[i] !in letters
  }

  lemma SiteCountWords(key: string)
    requires key in {"site_total_clients", "site_wired_clients", "site_wireless_clients"}
    ensures LaterWordsAvoid(key, Initials("sensor"))
  {
  }

  lemma DownloadWords(key: string)
    requires key in {"internet_download_1h", "internet_download_1d"}
    ensures LaterWordsAvoid(key, Initials("sensor"))
  {
  }

  lemma LongDownloadWords(key: string)
    requires key in {"internet_download_1w", "internet_download_1m"}
    ensures LaterWordsAvoid(key, Initials("sensor"))
  {
  }

  lemma UploadWords(key: string)
    requires key in {"internet_upload_1h", "internet_upload_1d"}
    ensures LaterWordsAvoid(key, Initials("sensor"))
  {
  }

  lemma LongUploadWords(key: string)
    requires key in {"internet_upload_1w", "internet_upload_1m"}
    ensures LaterWordsAvoid(key, Initials("sensor"))
  {
  }

  lemma VoucherWords(key: string)
    requires key in {"latest_voucher_code", "latest_voucher_expiration", "active_vouchers"}
    ensures LaterWordsAvoid(key, Initials("sensor"))
  {
  }

  lemma SensorWords(key: string)
    requires key in SUFFIXES["sensor"]
    ensures key != "" && key[0] in Initials("sensor") && LaterWordsAvoid(key, Initials("sensor"))
  {
    if key in {"site_total_clients", "site_wired_clients", "site_wireless_clients"} {
      SiteCountWords(key);
    } else if key in {"internet_download_1h", "internet_download_1d"} {
      DownloadWords(key);
    } else if key in {"internet_download_1w", "internet_download_1m"} {
      LongDownloadWords(key);
    } else if key in {"internet_upload_1h", "internet_upload_1d"} {
      UploadWords(key);
    } else if key in {"internet_upload_1w", "internet_upload_1m"} {
      LongUploadWords(key);
    } else {
      VoucherWords(key);
    }
  }

  lemma NumberWords(key: string)
    requires key in {"voucher_duration", "voucher_guest_limit", "voucher_data_limit"}
    ensures LaterWordsAvoid(key, Initials("number"))
  {
  }

  lemma RateLimitWords(key: string)
    requires key in {"voucher_download_limit", "voucher_upload_limit"}
    ensures LaterWordsAvoid(key, Initials("number"))
  {
  }

  /** No later word of a declared suffix starts like a whole suffix of its domain. */
  lemma SuffixWords(domain: string, key: string)
    requires domain in SUFFIXES && key in SUFFIXES[domain]
    ensures key != "" && key[0] in Initials(domain) && LaterWordsAvoid(key, Initials(domain))
  {
    if domain == "sensor" {
      SensorWords(key);
    } else if domain == "number" {
      if key in {"voucher_duration", "voucher_guest_limit", "voucher_data_limit"} {
        NumberWords(key);
      } else {
        RateLimitWords(key);
      }
    }
  }

  /** No declared suffix of a domain ends in `_` and another suffix of that domain. */
  lemma SuffixFreeFamilies(domain: string, k1: string, k2: string)
    requires domain in SUFFIXES && k1 in SUFFIXES[domain] && k2 in SUFFIXES[domain]
    ensures !EndsWith(k2, "_" + k1)
  {
    SuffixWords(domain, k1);
    if EndsWith(k2, "_" + k1) {
      EndingWord(k1, k2);
      SuffixWords(domain, k2);
    }
  }

  lemma EndingWord(k1: string, k2: string)
    requires k1 != "" && EndsWith(k2, "_" + k1)
    ensures 0 < |k2| - |k1| && k2[|k2| - |k1| - 1] == '_' && k2[|k2| - |k1|] == k1[0]
  {
    var at := |k2| - |k1| - 1;
    assert k2[at..][0] == ("_" + k1)[0] && k2[at..][1] == ("_" + k1)[1];
  }

  /** `{site}_{suffix}` names one site and one declared suffix, whatever the site. */
  lemma LegacyIdDecodesUniquely(domain: string, s1: string, k1: string, s2: string, k2: string)
    requires domain in SUFFIXES && k1 in SUFFIXES[domain] && k2 in SUFFIXES[domain]
    requires LegacyUniqueId(s1, k1) == LegacyUniqueId(s2, k2)
    ensures s1 == s2 && k1 == k2
  {
    SuffixFreeFamilies(domain, k1, k2);
    SuffixFreeFamilies(domain, k2, k1);
    TailsDecodeUniquely(s1, k1, s2, k2);
  }

  lemma TailsDecodeUniquely(s1: string, k1: string, s2: string, k2: string)
    requires LegacyUniqueId(s1, k1) == LegacyUniqueId(s2, k2)
    requires !EndsWith(k2, "_" + k1) && !EndsWith(k1, "_" + k2)
    ensures s1 == s2 && k1 == k2
  {
    assert s1 + ("_" + k1) == LegacyUniqueId(s1, k1) && s2 + ("_" + k2) == LegacyUniqueId(s2, k2);
    if |k1| == |k2| {
      SameTail(s1, "_" + k1, s2, "_" + k2);
      assert k1 == ("_" + k1)[1..] && k2 == ("_" + k2)[1..];
    } else if |k1| < |k2| {
      ShorterTail(s1, k1, s2, k2);
    } else {
      ShorterTail(s2, k2, s1, k1);
    }
  }

  lemma SameTail(s1: string, t1: string, s2: string, t2: string)
    requires s1 + t1 == s2 + t2 && |t1| == |t2|
    ensures s1 == s2 && t1 == t2
  {
    assert s1 == (s1 + t1)[..|s1|] && s2 == (s2 + t2)[..|s2|];
    assert t1 == (s1 + t1)[|s1|..] && t2 == (s2 + t2)[|s2|..];
  }

  lemma ShorterTail(s1: string, k1: string, s2: string, k2: string)
    requires LegacyUniqueId(s1, k1) == LegacyUniqueId(s2, k2) && |k1| < |k2|
    ensures EndsWith(k2, "_" + k1)
  {
    var whole := LegacyUniqueId(s1, k1);
    assert whole == s1 + ("_" + k1) == (s2 + "_") + k2;
    assert "_" + k1 == whole[|whole| - |k1| - 1..];
    assert k2 == whole[|whole| - |k2|..];
    assert k2[|k2| - |k1| - 1..] == whole[|whole| - |k1| - 1..];
  }
}

/** The redacted network rule export: an allow-list over a tree, then MAC pseudonyms. */
module RuleExport {
  import opened Text
  import opened MacPseudonyms

  /** The kept keys of each rule type. */
  type AllowList = map<string, set<string>>

  const RULE_EXPORT_SAFE_KEYS: AllowList := map[
    "firewall_rule" := {"id", "enabled", "action", "index", "logging", "loggingEnabled", "protocol", "ipProtocolScope",
                        "connectionStateFilter"},
    "policy_based_route" := {"_id", "enabled", "killSwitch", "kill_switch", "killSwitchEnabled", "kill_switch_enabled",
                             "matchingTarget", "matching_target"},
    "port_forward" := {"_id", "enabled", "proto", "dst_port", "fwd_port", "log", "src_limiting_enabled", "pfwd_interface"},
    "traffic_rule" := {"_id", "enabled", "action", "matching_target"},
    "nat_rule" := {"_id", "enabled", "type", "protocol", "ip_version", "logging", "rule_index", "exclude", "is_predefined",
                   "setting_preference", "port"},
    "static_route" := {"_id", "enabled", "type", "static-route_type", "static-route_distance", "gateway_type"}
  ]

  const GONE := Str(REDACTED)

  // ---------- Safe values ----------

  predicate IsSafeChar(c: char) {
    IsDigit(c) || 'a' <= c <= 'z' || 'A' <= c <= 'Z' || c == '_' || c == '-'
  }

  predicate IsSafeText(s: string) {
    |s| <= 64 && forall c :: c in s ==> IsSafeChar(c) || c == ','
  }

  predicate IsSafeKey(key: Key) {
    key.StrKey? && 1 <= |key.text| <= 64 && forall c :: c in key.text ==> IsSafeChar(c)
  }

  predicate AllKeysSafe(fields: Fields) {
    fields.Field? ==> IsSafeKey(fields.key) && AllKeysSafe(fields.rest)
  }

  /** `_safe_export_value` */
  function SafeValue(v: Json): Json {
    match v
    case Str(text) => if IsSafeText(text) then v else GONE
    case Arr(items) => Arr(SafeItems(items))
    case Obj(fields) => if AllKeysSafe(fields) then Obj(SafeFields(fields)) else GONE
    case _ => v
  }

  function SafeItems(items: Items): Items {
    match items
    case NoItems => NoItems
    case Item(head, tail) => Item(SafeValue(head), SafeItems(tail))
  }

  function SafeFields(fields: Fields): Fields {
    match fields
    case NoFields => NoFields
    case Field(key, value, rest) => Field(key, SafeValue(value), SafeFields(rest))
  }

  // ---------- Redaction ----------

  function Wiped(fields: Fields): Fields {
    match fields
    case NoFields => NoFields
    case Field(key, _, rest) => Field(key, GONE, Wiped(rest))
  }

  predicate IsKept(allow: AllowList, ruleType: Key, key: Key) {
    ruleType.StrKey? && ruleType.text in allow && key.StrKey? && key.text in allow[ruleType.text]
  }

  function RedactedRuleFields(allow: AllowList, ruleType: Key, fields: Fields): Fields {
    match fields
    case NoFields => NoFields
    case Field(key, value, rest) =>
      Field(key, if IsKept(allow, ruleType, key) then SafeValue(value) else GONE, RedactedRuleFields(allow, ruleType, rest))
  }

  /** `_redact_export_rule` */
  function RedactedRule(allow: AllowList, ruleType: Key, rule: Json): Json {
    if rule.Obj? && AllKeysSafe(rule.fields) then Obj(RedactedRuleFields(allow, ruleType, rule.fields)) else GONE
  }

  function RedactedRules(allow: AllowList, ruleType: Key, rules: Items): Items {
    match rules
    case NoItems => NoItems
    case Item(head, tail) => Item(RedactedRule(allow, ruleType, head), RedactedRules(allow, ruleType, tail))
  }

  function RedactedFamilyValue(allow: AllowList, ruleType: Key, key: Key, value: Json): Json {
    if key == StrKey("status") || key == StrKey("count") then SafeValue(value)
    else if key == StrKey("rules") && value.Arr? then Arr(RedactedRules(allow, ruleType, value.items))
    else GONE
  }

  function RedactedFamilyFields(allow: AllowList, ruleType: Key, fields: Fields): Fields {
    match fields
    case NoFields => NoFields
    case Field(key, value, rest) =>
      Field(key, RedactedFamilyValue(allow, ruleType, key, value), RedactedFamilyFields(allow, ruleType, rest))
  }

  /** `_redact_export_family` */
  function RedactedFamily(allow: AllowList, ruleType: Key, exported: Json): Json {
    if exported.Obj? then Obj(RedactedFamilyFields(allow, ruleType, exported.fields)) else GONE
  }

  function RedactedFamilies(allow: AllowList, families: Fields): Fields {
    match families
    case NoFields => NoFields
    case Field(ruleType, exported, rest) => Field(ruleType, RedactedFamily(allow, ruleType, exported), RedactedFamilies(allow, rest))
  }

  function RedactedSiteFields(allow: AllowList, fields: Fields): Fields {
    match fields
    case NoFields => NoFields
    case Field(key, value, rest) =>
      Field(key,
            if key == StrKey("rule_types") && value.Obj? then Obj(RedactedFamilies(allow, value.fields)) else GONE,
            RedactedSiteFields(allow, rest))
  }

  /** `_redact_export_site` */
  function RedactedSite(allow: AllowList, site: Json): Json {
    if site.Obj? then Obj(RedactedSiteFields(allow, site.fields)) else GONE
  }

  // ---------- Site labels ----------

  /** Code-point order of strings. */
  predicate Less(a: string, b: string) {
    if a == "" then b != ""
    else b != "" && (a[0] < b[0] || (a[0] == b[0] && Less(a[1..], b[1..])))
  }

  /** `str(key)` */
  function KeyText(key: Key): string {
    match key
    case StrKey(text) => text
    case OtherKey(n) => if n < 0 then "-" + Decimal(-n) else Decimal(n)
  }

  function KeyTexts(fields: Fields): (texts: seq<string>) {
    match fields
    case NoFields => []
    case Field(key, _, rest) => [KeyText(key)] + KeyTexts(rest)
  }

  /** Element `j` precedes element `i` in the stably sorted list. */
  predicate Before(texts: seq<string>, j: nat, i: nat)
    requires j < |texts| && i < |texts|
  {
    Less(texts[j], texts[i]) || (texts[j] == texts[i] && j < i)
  }

  /** How many of the first `n` elements precede element `i`. */
  function CountBefore(texts: seq<string>, i: nat, n: nat): (count: nat)
    requires i < |texts| && n <= |texts|
    ensures count <= n
  {
    if n == 0 then 0 else CountBefore(texts, i, n - 1) + (if Before(texts, n - 1, i) then 1 else 0)
  }

  /** The number of a site: its place, from 1, among the sorted site IDs. */
  function SiteNumber(texts: seq<string>, i: nat): nat
    requires i < |texts|
  {
    CountBefore(texts, i, |texts|) + 1
  }

  function SiteLabel(texts: seq<string>, i: nat): Key
    requires i < |texts|
  {
    StrKey("site-" + Decimal(SiteNumber(texts, i)))
  }

  /** The sites from position `i` on, under their labels. */
  function RedactedSites(allow: AllowList, texts: seq<string>, sites: Fields, i: nat): Fields
    requires i + Length(sites) == |texts|
    decreases sites
  {
    match sites
    case NoFields => NoFields
    case Field(_, site, rest) => Field(SiteLabel(texts, i), RedactedSite(allow, site), RedactedSites(allow, texts, rest, i + 1))
  }

  function Length(fields: Fields): nat {
    match fields
    case NoFields => 0
    case Field(_, _, rest) => 1 + Length(rest)
  }

  lemma {:induction false} KeyTextsLength(fields: Fields)
    ensures |KeyTexts(fields)| == Length(fields)
  {
    if fields.Field? {
      KeyTextsLength(fields.rest);
    }
  }

  function RelabelledSites(allow: AllowList, sites: Fields): Fields {
    KeyTextsLength(sites);
    RedactedSites(allow, KeyTexts(sites), sites, 0)
  }

  // ---------- The document ----------

  function RedactedDocumentValue(allow: AllowList, key: Key, value: Json): Json {
    if key == StrKey("format_version") || key == StrKey("generated_at") then value
    else if key == StrKey("console") && value.Obj? then Obj(Wiped(value.fields))
    else if key == StrKey("sites") && value.Obj? then Obj(RelabelledSites(allow, value.fields))
    else GONE
  }

  function RedactedDocumentFields(allow: AllowList, fields: Fields): Fields {
    match fields
    case NoFields => NoFields
    case Field(key, value, rest) => Field(key, RedactedDocumentValue(allow, key, value), RedactedDocumentFields(allow, rest))
  }

  /** The document before addresses are anonymized. */
  function RedactedDocument(allow: AllowList, document: Fields): Fields {
    Put(RedactedDocumentFields(allow, document), StrKey("redacted"), Bool(true))
  }

  /** `redact_network_rule_export`; documents are values, so the input cannot change. */
  method RedactNetworkRuleExport(document: Fields, allow: AllowList := RULE_EXPORT_SAFE_KEYS) returns (redacted: Fields)
    ensures redacted == Exported(allow, document)
    ensures CleanFields(redacted)
  {
    hide *;
    var report := new Report();
    EmptyDense();
    ExportedClean(allow, document);
    ExportedIs(allow, document);
    redacted := report.AnonymizeFields(RedactedDocument(allow, document));
  }

  function Exported(allow: AllowList, document: Fields): Fields {
    AnonymousFields(RedactedDocument(allow, document), NoFields, map[]).0
  }

  lemma ExportedIs(allow: AllowList, document: Fields)
    ensures Exported(allow, document) == AnonymousFields(RedactedDocument(allow, document), NoFields, map[]).0
  {
  }

  lemma EmptyDense()
    ensures Dense(map[])
  {
  }

  lemma ExportedClean(allow: AllowList, document: Fields)
    ensures CleanFields(Exported(allow, document))
  {
    hide RedactedDocument, AnonymousFields;
    AnonymousFieldsClean(RedactedDocument(allow, document), NoFields, map[]);
  }
}

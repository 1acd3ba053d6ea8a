/** What a redacted rule export shows: at each place the value that stood there, or REDACTED where it may not be shown. */
module ExportShown {
  import opened Text
  import opened MacPseudonyms
  import opened RuleExport
  import opened ExportSecrecy
  import opened ExportShape

  const MARK := Str("**REDACTED**")

  // ---------- Values ----------

  /** Letters, digits, `_`, `-` and, in values, commas. */
  predicate PlainCharacter(c: char, comma: bool) {
    'A' <= c <= 'Z' || 'a' <= c <= 'z' || '0' <= c <= '9' || c == '_' || c == '-' || (comma && c == ',')
  }

  predicate PlainText(s: string, least: nat, comma: bool) {
    least <= |s| <= 64 && forall i :: 0 <= i < |s| ==> PlainCharacter(s[i], comma)
  }

  predicate PlainKeys(fields: Fields) {
    fields.Field? ==> fields.key.StrKey? && PlainText(fields.key.text, 1, false) && PlainKeys(fields.rest)
  }

  /** A text that is not plain, or a mapping with a key that is not. */
  predicate Withheld(v: Json) {
    (v.Str? && !PlainText(v.text, 0, true)) || (v.Obj? && !PlainKeys(v.fields))
  }

  /** `out` is `v` with the mark exactly in place of what is withheld, however deep. */
  predicate Shows(v: Json, out: Json) {
    if Withheld(v) then out == MARK
    else if v.Arr? then out.Arr? && ItemsShow(v.items, out.items)
    else if v.Obj? then out.Obj? && FieldsShow(v.fields, out.fields)
    else out == v
  }

  predicate ItemsShow(items: Items, out: Items) {
    if items.Item? && out.Item? then Shows(items.head, out.head) && ItemsShow(items.tail, out.tail) else items == out
  }

  predicate FieldsShow(fields: Fields, out: Fields) {
    if fields.Field? && out.Field?
    then fields.key == out.key && Shows(fields.value, out.value) && FieldsShow(fields.rest, out.rest)
    else fields == out
  }

  lemma PlainIsSafe(s: string)
    ensures IsSafeText(s) <==> PlainText(s, 0, true)
    ensures IsSafeKey(StrKey(s)) <==> PlainText(s, 1, false)
  {
    assert forall i :: 0 <= i < |s| ==> s[i] in s;
  }

  lemma {:induction false} PlainKeysAreSafe(fields: Fields)
    ensures AllKeysSafe(fields) <==> PlainKeys(fields)
  {
    hide IsSafeKey, PlainText;
    if fields.Field? {
      if fields.key.StrKey? {
        PlainIsSafe(fields.key.text);
      } else {
        assert !IsSafeKey(fields.key) by { OtherKeysUnsafe(fields.key); }
      }
      PlainKeysAreSafe(fields.rest);
    }
  }

  lemma OtherKeysUnsafe(key: Key)
    requires !key.StrKey?
    ensures !IsSafeKey(key)
  {
  }

  lemma {:induction false} SafeValueShows(v: Json, out: Json)
    ensures out == SafeValue(v) <==> Shows(v, out)
  {
    hide IsSafeText, AllKeysSafe, PlainText, PlainKeys, SafeItems, SafeFields, ItemsShow, FieldsShow;
    match v
    case Str(text) => PlainIsSafe(text);
    case Arr(items) =>
      if out.Arr? {
        SafeItemsShow(items, out.items);
      }
    case Obj(fields) =>
      PlainKeysAreSafe(fields);
      if out.Obj? {
        SafeFieldsShow(fields, out.fields);
      }
    case _ =>
  }

  lemma {:induction false} SafeItemsShow(items: Items, out: Items)
    ensures out == SafeItems(items) <==> ItemsShow(items, out)
  {
    hide SafeValue, Shows;
    if items.Item? && out.Item? {
      SafeValueShows(items.head, out.head);
      SafeItemsShow(items.tail, out.tail);
    }
  }

  lemma {:induction false} SafeFieldsShow(fields: Fields, out: Fields)
    ensures out == SafeFields(fields) <==> FieldsShow(fields, out)
  {
    hide SafeValue, Shows;
    if fields.Field? && out.Field? {
      SafeValueShows(fields.value, out.value);
      SafeFieldsShow(fields.rest, out.rest);
    }
  }

  // ---------- Rules ----------

  predicate Listed(allow: AllowList, ruleType: Key, key: Key) {
    exists type_, name :: ruleType == StrKey(type_) && key == StrKey(name) && type_ in allow && name in allow[type_]
  }

  /** Under a listed key what the value shows, under any other the mark. */
  predicate RuleValueShows(allow: AllowList, ruleType: Key, key: Key, v: Json, out: Json) {
    if Listed(allow, ruleType, key) then Shows(v, out) else out == MARK
  }

  predicate RuleFieldsShow(allow: AllowList, ruleType: Key, fields: Fields, out: Fields) {
    if fields.Field? && out.Field?
    then fields.key == out.key && RuleValueShows(allow, ruleType, fields.key, fields.value, out.value)
         && RuleFieldsShow(allow, ruleType, fields.rest, out.rest)
    else fields == out
  }

  predicate RuleShows(allow: AllowList, ruleType: Key, rule: Json, out: Json) {
    if rule.Obj? && PlainKeys(rule.fields)
    then out.Obj? && RuleFieldsShow(allow, ruleType, rule.fields, out.fields)
    else out == MARK
  }

  predicate RulesShow(allow: AllowList, ruleType: Key, rules: Items, out: Items) {
    if rules.Item? && out.Item?
    then RuleShows(allow, ruleType, rules.head, out.head) && RulesShow(allow, ruleType, rules.tail, out.tail)
    else rules == out
  }

  lemma ListedIsKept(allow: AllowList, ruleType: Key, key: Key)
    ensures IsKept(allow, ruleType, key) <==> Listed(allow, ruleType, key)
  {
  }

  lemma {:induction false} RuleFieldsAreShown(allow: AllowList, ruleType: Key, fields: Fields, out: Fields)
    ensures out == RedactedRuleFields(allow, ruleType, fields) <==> RuleFieldsShow(allow, ruleType, fields, out)
  {
    hide SafeValue, Shows, IsKept, Listed;
    if fields.Field? && out.Field? {
      ListedIsKept(allow, ruleType, fields.key);
      SafeValueShows(fields.value, out.value);
      RuleFieldsAreShown(allow, ruleType, fields.rest, out.rest);
    }
  }

  /** A redacted rule has the rule's keys; listed ones show what may be shown of their values. */
  lemma RuleIsShown(allow: AllowList, ruleType: Key, rule: Json, out: Json)
    ensures out == RedactedRule(allow, ruleType, rule) <==> RuleShows(allow, ruleType, rule, out)
  {
    hide RedactedRuleFields, RuleFieldsShow, AllKeysSafe, PlainKeys;
    if rule.Obj? {
      PlainKeysAreSafe(rule.fields);
      if out.Obj? {
        RuleFieldsAreShown(allow, ruleType, rule.fields, out.fields);
      }
    }
  }

  lemma {:induction false} RulesAreShown(allow: AllowList, ruleType: Key, rules: Items, out: Items)
    ensures out == RedactedRules(allow, ruleType, rules) <==> RulesShow(allow, ruleType, rules, out)
  {
    hide RedactedRule, RuleShows;
    if rules.Item? && out.Item? {
      RuleIsShown(allow, ruleType, rules.head, out.head);
      RulesAreShown(allow, ruleType, rules.tail, out.tail);
    }
  }

  // ---------- Families and sites ----------

  const STATUS := StrKey("status")
  const COUNT := StrKey("count")

  predicate FamilyValueShows(allow: AllowList, ruleType: Key, key: Key, v: Json, out: Json) {
    if key in {STATUS, COUNT} then Shows(v, out)
    else if key == RULES && v.Arr? then out.Arr? && RulesShow(allow, ruleType, v.items, out.items)
    else out == MARK
  }

  predicate FamilyFieldsShow(allow: AllowList, ruleType: Key, fields: Fields, out: Fields) {
    if fields.Field? && out.Field?
    then fields.key == out.key && FamilyValueShows(allow, ruleType, fields.key, fields.value, out.value)
         && FamilyFieldsShow(allow, ruleType, fields.rest, out.rest)
    else fields == out
  }

  predicate FamilyShows(allow: AllowList, ruleType: Key, family: Json, out: Json) {
    if family.Obj? then out.Obj? && FamilyFieldsShow(allow, ruleType, family.fields, out.fields) else out == MARK
  }

  predicate FamiliesShow(allow: AllowList, families: Fields, out: Fields) {
    if families.Field? && out.Field?
    then families.key == out.key && FamilyShows(allow, families.key, families.value, out.value)
         && FamiliesShow(allow, families.rest, out.rest)
    else families == out
  }

  predicate SiteValueShows(allow: AllowList, key: Key, v: Json, out: Json) {
    if key == RULE_TYPES && v.Obj? then out.Obj? && FamiliesShow(allow, v.fields, out.fields) else out == MARK
  }

  predicate SiteFieldsShow(allow: AllowList, fields: Fields, out: Fields) {
    if fields.Field? && out.Field?
    then fields.key == out.key && SiteValueShows(allow, fields.key, fields.value, out.value)
         && SiteFieldsShow(allow, fields.rest, out.rest)
    else fields == out
  }

  predicate SiteShows(allow: AllowList, site: Json, out: Json) {
    if site.Obj? then out.Obj? && SiteFieldsShow(allow, site.fields, out.fields) else out == MARK
  }

  lemma FamilyValueIsShown(allow: AllowList, ruleType: Key, key: Key, v: Json, out: Json)
    ensures out == RedactedFamilyValue(allow, ruleType, key, v) <==> FamilyValueShows(allow, ruleType, key, v, out)
  {
    hide SafeValue, Shows, RedactedRules, RulesShow;
    SafeValueShows(v, out);
    if v.Arr? && out.Arr? {
      RulesAreShown(allow, ruleType, v.items, out.items);
    }
  }

  lemma {:induction false} FamilyFieldsAreShown(allow: AllowList, ruleType: Key, fields: Fields, out: Fields)
    ensures out == RedactedFamilyFields(allow, ruleType, fields) <==> FamilyFieldsShow(allow, ruleType, fields, out)
  {
    hide RedactedFamilyValue, FamilyValueShows;
    if fields.Field? && out.Field? {
      FamilyValueIsShown(allow, ruleType, fields.key, fields.value, out.value);
      FamilyFieldsAreShown(allow, ruleType, fields.rest, out.rest);
    }
  }

  lemma {:induction false} FamiliesAreShown(allow: AllowList, families: Fields, out: Fields)
    ensures out == RedactedFamilies(allow, families) <==> FamiliesShow(allow, families, out)
  {
    hide RedactedFamilyFields, FamilyFieldsShow;
    if families.Field? && out.Field? {
      if families.value.Obj? && out.value.Obj? {
        FamilyFieldsAreShown(allow, families.key, families.value.fields, out.value.fields);
      }
      FamiliesAreShown(allow, families.rest, out.rest);
    }
  }

  lemma {:induction false} SiteFieldsAreShown(allow: AllowList, fields: Fields, out: Fields)
    ensures out == RedactedSiteFields(allow, fields) <==> SiteFieldsShow(allow, fields, out)
  {
    hide RedactedFamilies, FamiliesShow;
    if fields.Field? && out.Field? {
      if fields.value.Obj? && out.value.Obj? {
        FamiliesAreShown(allow, fields.value.fields, out.value.fields);
      }
      SiteFieldsAreShown(allow, fields.rest, out.rest);
    }
  }

  lemma SiteIsShown(allow: AllowList, site: Json, out: Json)
    ensures out == RedactedSite(allow, site) <==> SiteShows(allow, site, out)
  {
    hide RedactedSiteFields, SiteFieldsShow;
    if site.Obj? && out.Obj? {
      SiteFieldsAreShown(allow, site.fields, out.fields);
    }
  }

  // ---------- The document ----------

  /** The sites in their order, each under `site-` and its number. */
  predicate SitesShow(allow: AllowList, texts: seq<string>, sites: Fields, out: Fields, i: nat)
    requires i + Length(sites) == |texts|
    decreases sites
  {
    if sites.Field? && out.Field?
    then out.key == StrKey("site-" + Decimal(SiteNumber(texts, i))) && SiteShows(allow, sites.value, out.value)
         && SitesShow(allow, texts, sites.rest, out.rest, i + 1)
    else sites == out
  }

  lemma {:induction false} SitesAreShown(allow: AllowList, texts: seq<string>, sites: Fields, i: nat)
    requires i + Length(sites) == |texts|
    ensures SitesShow(allow, texts, sites, RedactedSites(allow, texts, sites, i), i)
    decreases sites
  {
    hide RedactedSite, SiteShows, SiteNumber;
    if sites.Field? {
      SiteIsShown(allow, sites.value, RedactedSite(allow, sites.value));
      SitesAreShown(allow, texts, sites.rest, i + 1);
    }
  }

  /** The same keys, each with the mark. */
  predicate AllMarked(fields: Fields, out: Fields) {
    if fields.Field? && out.Field? then fields.key == out.key && out.value == MARK && AllMarked(fields.rest, out.rest)
    else fields == out
  }

  lemma {:induction false} WipedIsMarked(fields: Fields)
    ensures AllMarked(fields, Wiped(fields))
  {
    if fields.Field? {
      WipedIsMarked(fields.rest);
    }
  }

  const FORMAT_VERSION := StrKey("format_version")
  const GENERATED_AT := StrKey("generated_at")
  const CONSOLE := StrKey("console")
  const IS_REDACTED := StrKey("redacted")

  predicate DocumentValueShows(allow: AllowList, key: Key, v: Json, out: Json) {
    if key in {FORMAT_VERSION, GENERATED_AT} then out == v
    else if key == CONSOLE && v.Obj? then out.Obj? && AllMarked(v.fields, out.fields)
    else if key == SITES && v.Obj? then
      KeyTextsLength(v.fields);
      out.Obj? && SitesShow(allow, KeyTexts(v.fields), v.fields, out.fields, 0)
    else out == MARK
  }

  /** Before addresses are replaced, the export has the document's keys, each with what may be shown, and `redacted` is set. */
  lemma DocumentIsShown(allow: AllowList, document: Fields, key: Key)
    ensures Lookup(RedactedDocument(allow, document), IS_REDACTED) == Some(Bool(true))
    ensures key != IS_REDACTED ==>
              var v, out := Lookup(document, key), Lookup(RedactedDocument(allow, document), key);
              v.Some? == out.Some? && (v.Some? ==> DocumentValueShows(allow, key, v.value, out.value))
  {
    hide RedactedDocumentFields, RedactedDocumentValue, DocumentValueShows, Put;
    var fields := RedactedDocumentFields(allow, document);
    PutLookup(fields, IS_REDACTED, Bool(true), IS_REDACTED);
    PutLookup(fields, IS_REDACTED, Bool(true), key);
    DocumentLookup(allow, document, key);
    SameKeysDistinct(document, fields, key);
    if Lookup(document, key).Some? {
      DocumentValueIsShown(allow, key, Lookup(document, key).value);
    }
  }

  lemma DocumentValueIsShown(allow: AllowList, key: Key, v: Json)
    ensures DocumentValueShows(allow, key, v, RedactedDocumentValue(allow, key, v))
  {
    hide RedactedSites, SitesShow, Wiped, AllMarked, KeyTexts;
    if v.Obj? {
      WipedIsMarked(v.fields);
      KeyTextsLength(v.fields);
      SitesAreShown(allow, KeyTexts(v.fields), v.fields, 0);
    }
  }

  /** The whole export is the redacted document with every MAC named from one table, without two names for one address. */
  lemma ExportedAtOnce(allow: AllowList, document: Fields)
    ensures exists table: Seen :: Dense(table) && Exported(allow, document) == FieldsWithNames(RedactedDocument(allow, document), NoFields, table)
  {
    hide Dense, Grows, AnonymousFields, FieldsWithNames, RedactedDocument;
    var redacted := RedactedDocument(allow, document);
    var table := AnonymousFields(redacted, NoFields, map[]).1;
    EmptyDense();
    AnonymousFieldsClean(redacted, NoFields, map[]) by { assert CleanFields(NoFields); }
    GrowsSelf(table);
    FieldsAtOnce(redacted, NoFields, map[], table);
  }

  // ---------- Values that stand in the export ----------

  lemma UnmarkedIsKept(v: Json, w: Option<Json>, isMacField: bool)
    requires AnonymizedMaybe(Some(v), w, isMacField) && Unmarked(v, isMacField)
    ensures w == Some(v)
  {
    hide Unmarked, Dense, Anonymous;
    var seen: Seen :| Dense(seen) && w.value == Anonymous(v, seen, isMacField).0;
    UnmarkedStands(v, seen, isMacField);
  }

  /** The version and the time stand as they were, whatever they are, unless they hold a MAC. */
  lemma TopLevelStands(allow: AllowList, document: Fields, key: Key)
    requires key in {FORMAT_VERSION, GENERATED_AT} && Distinct(document)
    requires Lookup(document, key).Some? && Unmarked(Lookup(document, key).value, false)
    ensures Lookup(Exported(allow, document), key) == Lookup(document, key)
  {
    hide Unmarked, RedactedDocument, AnonymousFields, Dense, Distinct;
    DocumentIsShown(allow, document, key);
    RedactedIsDistinct(allow, document);
    TopLevelOrdinary(key);
    EmptyDense();
    AnonymousLookup(RedactedDocument(allow, document), NoFields, map[], key);
    UnmarkedIsKept(Lookup(document, key).value, Lookup(Exported(allow, document), key), false);
  }

  lemma TopLevelOrdinary(key: Key)
    requires key in {FORMAT_VERSION, GENERATED_AT, IS_REDACTED}
    ensures Ordinary(key) && !IsMacKey(key)
  {
    assert key.text[0] in {'f', 'g', 'r'} && |"format_version"| == 14;
  }

  lemma RedactedIsDistinct(allow: AllowList, document: Fields)
    requires Distinct(document)
    ensures Distinct(RedactedDocument(allow, document))
  {
    hide RedactedDocumentFields, Put, Distinct;
    DocumentLookup(allow, document, SITES);
    SameKeysDistinct(document, RedactedDocumentFields(allow, document), SITES);
    PutDistinct(RedactedDocumentFields(allow, document), IS_REDACTED, Bool(true));
  }

  lemma SaysRedacted(allow: AllowList, document: Fields)
    requires Distinct(document)
    ensures Lookup(Exported(allow, document), IS_REDACTED) == Some(Bool(true))
  {
    hide RedactedDocument, AnonymousFields, Dense, Distinct;
    DocumentIsShown(allow, document, SITES);
    RedactedIsDistinct(allow, document);
    TopLevelOrdinary(IS_REDACTED);
    EmptyDense();
    AnonymousLookup(RedactedDocument(allow, document), NoFields, map[], IS_REDACTED);
    UnmarkedIsKept(Bool(true), Lookup(Exported(allow, document), IS_REDACTED), false);
  }

  /** Under its site's label, each value of a family shows what it may: its status and count, and the mark for any other. */
  lemma FamilyValueStands(allow: AllowList, document: Fields, i: nat, ruleType: Key, key: Key, out: Json)
    requires HasSites(document) && i < Length(SitesOf(document)) && Ordinary(ruleType) && Ordinary(key)
    requires var site, path := Nth(SitesOf(document), i).value, [RULE_TYPES, ruleType, key];
      && Tidy(site, path) && At(site, path).Some?
      && FamilyValueShows(allow, ruleType, key, At(site, path).value, out) && Unmarked(out, IsMacKey(key))
    ensures |KeyTexts(SitesOf(document))| == Length(SitesOf(document))
    ensures At(Obj(Exported(allow, document)), [SITES, SiteLabel(KeyTexts(SitesOf(document)), i), RULE_TYPES, ruleType, key])
            == Some(out)
  {
    hide *;
    FamilyValueFound(allow, document, i, ruleType, key);
    var v := At(Nth(SitesOf(document), i).value, [RULE_TYPES, ruleType, key]).value;
    FamilyValueIsShown(allow, ruleType, key, v, out);
    var path := [SITES, SiteLabel(KeyTexts(SitesOf(document)), i), RULE_TYPES, ruleType, key];
    UnmarkedIsKept(out, At(Obj(Exported(allow, document)), path), IsMacKey(key));
  }

  function NthItem(items: Items, r: nat): Json
    requires r < Count(items)
  {
    if r == 0 then items.head else NthItem(items.tail, r - 1)
  }

  lemma {:induction false} AnonymousItem(items: Items, seen: Seen, isMacField: bool, r: nat)
    requires Dense(seen) && r < Count(items)
    ensures var out := AnonymousItems(items, seen, isMacField).0;
      Count(out) == Count(items) && Anonymized(NthItem(items, r), NthItem(out, r), isMacField)
  {
    hide Dense, Anonymous;
    AnonymousCount(items, seen, isMacField);
    if r > 0 {
      AnonymousClean(items.head, seen, isMacField);
      AnonymousItem(items.tail, Anonymous(items.head, seen, isMacField).1, isMacField, r - 1);
    }
  }

  lemma AnonymizedItem(v: Json, w: Option<Json>, isMacField: bool, r: nat)
    requires v.Arr? && AnonymizedMaybe(Some(v), w, isMacField) && r < Count(v.items)
    ensures w.Some? && w.value.Arr? && Count(w.value.items) == Count(v.items)
    ensures Anonymized(NthItem(v.items, r), NthItem(w.value.items, r), isMacField)
  {
    hide Dense, AnonymousItems, NthItem, Count;
    var seen: Seen :| Dense(seen) && w.value == Anonymous(v, seen, isMacField).0;
    AnonymousItem(v.items, seen, isMacField, r);
  }

  lemma {:induction false} RedactedItem(allow: AllowList, ruleType: Key, rules: Items, r: nat)
    requires r < Count(rules)
    ensures var out := RedactedRules(allow, ruleType, rules);
      Count(out) == Count(rules) && NthItem(out, r) == RedactedRule(allow, ruleType, NthItem(rules, r))
  {
    hide RedactedRule;
    RedactedCount(allow, ruleType, rules);
    if r > 0 {
      RedactedItem(allow, ruleType, rules.tail, r - 1);
    }
  }

  lemma {:induction false} RuleLookup(allow: AllowList, ruleType: Key, fields: Fields, out: Fields, key: Key)
    requires RuleFieldsShow(allow, ruleType, fields, out)
    ensures SameKeys(fields, out)
    ensures Lookup(fields, key).Some? ==>
              Lookup(out, key).Some? && RuleValueShows(allow, ruleType, key, Lookup(fields, key).value, Lookup(out, key).value)
  {
    hide RuleValueShows;
    if fields.Field? {
      RuleLookup(allow, ruleType, fields.rest, out.rest, key);
    }
  }

  /** In a rule with plain keys, redaction and anonymizing leave what the value under an ordinary key shows. */
  lemma RuleValueKept(allow: AllowList, ruleType: Key, rule: Json, w: Json, isMacField: bool, key: Key, out: Json)
    requires rule.Obj? && PlainKeys(rule.fields) && Distinct(rule.fields) && Lookup(rule.fields, key).Some? && Ordinary(key)
    requires RuleValueShows(allow, ruleType, key, Lookup(rule.fields, key).value, out) && Unmarked(out, IsMacKey(key))
    requires Anonymized(RedactedRule(allow, ruleType, rule), w, isMacField)
    ensures w.Obj? && Lookup(w.fields, key) == Some(out)
  {
    hide PlainKeys, Distinct, Ordinary, IsMacKey, RuleFieldsShow, RedactedRule, Unmarked, Dense, AnonymousFields, Lookup, RuleValueShows;
    var redacted := RedactedRule(allow, ruleType, rule);
    RuleIsShown(allow, ruleType, rule, redacted);
    RuleLookup(allow, ruleType, rule.fields, redacted.fields, key);
    SameKeysDistinct(rule.fields, redacted.fields, key);
    ShownOnce(allow, ruleType, key, Lookup(rule.fields, key).value, Lookup(redacted.fields, key).value, out);
    var seen: Seen :| Dense(seen) && w == Anonymous(redacted, seen, isMacField).0;
    AnonymousLookup(redacted.fields, NoFields, seen, key);
    UnmarkedIsKept(out, Lookup(w.fields, key), IsMacKey(key));
  }

  /** What a value shows is determined. */
  lemma ShownOnce(allow: AllowList, ruleType: Key, key: Key, v: Json, a: Json, b: Json)
    requires RuleValueShows(allow, ruleType, key, v, a) && RuleValueShows(allow, ruleType, key, v, b)
    ensures a == b
  {
    hide Shows, Listed;
    SafeValueShows(v, a);
    SafeValueShows(v, b);
  }

  /** Under its site's label, in its place in its family, each value of a rule shows what it may. */
  lemma RuleValueStands(allow: AllowList, document: Fields, i: nat, ruleType: Key, r: nat, key: Key, out: Json)
    requires HasSites(document) && i < Length(SitesOf(document)) && Ordinary(ruleType) && Ordinary(key)
    requires var site := Nth(SitesOf(document), i).value;
      && Tidy(site, RulesPath(ruleType))
      && At(site, RulesPath(ruleType)).Some? && At(site, RulesPath(ruleType)).value.Arr?
      && r < Count(At(site, RulesPath(ruleType)).value.items)
    requires var rule := NthItem(At(Nth(SitesOf(document), i).value, RulesPath(ruleType)).value.items, r);
      && rule.Obj? && PlainKeys(rule.fields) && Distinct(rule.fields) && Lookup(rule.fields, key).Some?
      && RuleValueShows(allow, ruleType, key, Lookup(rule.fields, key).value, out) && Unmarked(out, IsMacKey(key))
    ensures |KeyTexts(SitesOf(document))| == Length(SitesOf(document))
    ensures var exported := At(Obj(Exported(allow, document)), [SITES, SiteLabel(KeyTexts(SitesOf(document)), i)] + RulesPath(ruleType));
      && exported.Some? && exported.value.Arr? && r < Count(exported.value.items)
      && var rule := NthItem(exported.value.items, r);
      rule.Obj? && Lookup(rule.fields, key) == Some(out)
  {
    hide *;
    RulesPathIs(ruleType);
    FixedKeysOrdinary();
    FamilyValueFound(allow, document, i, ruleType, RULES);
    var rules := At(Nth(SitesOf(document), i).value, RulesPath(ruleType)).value;
    var label_ := SiteLabel(KeyTexts(SitesOf(document)), i);
    assert [SITES, label_] + [RULE_TYPES, ruleType, RULES] == [SITES, label_, RULE_TYPES, ruleType, RULES];
    var exported := At(Obj(Exported(allow, document)), [SITES, label_, RULE_TYPES, ruleType, RULES]);
    RulesRedacted(allow, ruleType, rules);
    RedactedItem(allow, ruleType, rules.items, r);
    AnonymizedItem(Arr(RedactedRules(allow, ruleType, rules.items)), exported, IsMacKey(RULES), r);
    RuleValueKept(allow, ruleType, NthItem(rules.items, r), NthItem(exported.value.items, r), IsMacKey(RULES), key, out);
  }

  /** Numbers, booleans, nothing and plain texts show themselves under a listed key. */
  lemma ScalarShowsItself(allow: AllowList, ruleType: Key, key: Key, v: Json)
    requires Listed(allow, ruleType, key)
    requires v.Null? || v.Bool? || v.Num? || (v.Str? && PlainText(v.text, 0, true))
    ensures RuleValueShows(allow, ruleType, key, v, v)
  {
  }

  /** Every shipped rule type lists whether a rule is enabled. */
  lemma EnabledIsListed(ruleType: string)
    requires ruleType in RULE_EXPORT_SAFE_KEYS
    ensures Listed(RULE_EXPORT_SAFE_KEYS, StrKey(ruleType), StrKey("enabled"))
  {
    assert "enabled" in RULE_EXPORT_SAFE_KEYS[ruleType];
  }

  // ---------- The order of sites ----------

  /** One text comes before another if it is a proper beginning of it or the first difference is a smaller character. */
  lemma {:induction false} LessIs(a: string, b: string)
    ensures Less(a, b) <==> exists k: nat :: DifferAt(a, b, k)
  {
    if a == "" || b == "" || a[0] != b[0] {
      if Less(a, b) {
        assert DifferAt(a, b, 0);
      }
    } else {
      LessIs(a[1..], b[1..]);
      if k: nat :| DifferAt(a[1..], b[1..], k) {
        DifferLater(a, b, k);
      }
      if k: nat :| DifferAt(a, b, k) {
        assert k > 0;
        DifferLater(a, b, k - 1);
      }
    }
  }

  predicate DifferAt(a: string, b: string, k: nat) {
    k < |b| && k <= |a| && a[..k] == b[..k] && (k < |a| ==> a[k] < b[k])
  }

  lemma DifferLater(a: string, b: string, k: nat)
    requires a != "" && b != "" && a[0] == b[0]
    ensures DifferAt(a[1..], b[1..], k) <==> DifferAt(a, b, k + 1)
  {
    if k < |b| - 1 && k <= |a| - 1 {
      assert a[..k + 1] == [a[0]] + a[1..][..k] && b[..k + 1] == [b[0]] + b[1..][..k];
      assert a[..k + 1][1..] == a[1..][..k] && b[..k + 1][1..] == b[1..][..k];
    }
  }

  /** The text a site ID sorts by: itself, or the digits of a number with its sign. */
  predicate Spells(key: Key, text: string) {
    match key
    case StrKey(t) => text == t
    case OtherKey(n) => text == (if n < 0 then "-" + Decimal(0 - n) else Decimal(n))
  }

  lemma {:induction false} SitesSpelled(sites: Fields, i: nat)
    requires i < Length(sites)
    ensures i < |KeyTexts(sites)| == Length(sites) && Spells(Nth(sites, i).key, KeyTexts(sites)[i])
  {
    KeyTextsLength(sites);
    if i > 0 {
      SitesSpelled(sites.rest, i - 1);
      assert KeyTexts(sites)[i] == KeyTexts(sites.rest)[i - 1];
    }
  }

  lemma SpelledOnce(key: Key, a: string, b: string)
    requires Spells(key, a) && Spells(key, b)
    ensures a == b
  {
  }

  /** Sites with different IDs are numbered in the order of their IDs' code points. */
  lemma SitesNumbered(sites: Fields, i: nat, j: nat, a: string, b: string)
    requires i < Length(sites) && j < Length(sites) && Spells(Nth(sites, i).key, a) && Spells(Nth(sites, j).key, b) && a != b
    ensures |KeyTexts(sites)| == Length(sites)
    ensures SiteNumber(KeyTexts(sites), i) < SiteNumber(KeyTexts(sites), j) <==> exists k: nat :: DifferAt(a, b, k)
  {
    hide SiteNumber, Less, DifferAt, KeyTexts, Spells, Nth, Length;
    SitesSpelled(sites, i);
    SitesSpelled(sites, j);
    SpelledOnce(Nth(sites, i).key, a, KeyTexts(sites)[i]);
    SpelledOnce(Nth(sites, j).key, b, KeyTexts(sites)[j]);
    NumbersFollowOrder(KeyTexts(sites), i, j);
    LessIs(a, b);
  }
}

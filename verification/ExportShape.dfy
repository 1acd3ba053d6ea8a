/** A redacted rule export still has every site and, in each kept family, as many rules as before. */
module ExportShape {
  import opened Text
  import opened MacPseudonyms
  import opened RuleExport
  import opened ExportSecrecy

  // ---------- Paths ----------

  function Lookup(fields: Fields, key: Key): Option<Json> {
    match fields
    case NoFields => None
    case Field(k, v, rest) => if k == key then Some(v) else Lookup(rest, key)
  }

  /** The keys of a mapping are distinct. */
  predicate Distinct(fields: Fields) {
    fields.Field? ==> Lookup(fields.rest, fields.key).None? && Distinct(fields.rest)
  }

  function At(v: Json, path: seq<Key>): Option<Json>
    decreases path
  {
    if path == [] then Some(v)
    else if v.Obj? && Lookup(v.fields, path[0]).Some? then At(Lookup(v.fields, path[0]).value, path[1..])
    else None
  }

  /** Every mapping on the path is one: its keys are distinct. */
  predicate Tidy(v: Json, path: seq<Key>)
    decreases path
  {
    path != [] && v.Obj? ==>
      Distinct(v.fields) && (Lookup(v.fields, path[0]).Some? ==> Tidy(Lookup(v.fields, path[0]).value, path[1..]))
  }

  /** A key that is no address and not spelled like a placeholder. */
  predicate Ordinary(key: Key) {
    key.StrKey? && !IsMac(key.text) && (key.text != "" ==> key.text[0] != '*')
  }

  // ---------- Anonymizing keeps ordinary paths ----------

  lemma {:induction false} PutLookup(fields: Fields, key: Key, value: Json, k: Key)
    ensures Lookup(Put(fields, key, value), k) == if k == key then Some(value) else Lookup(fields, k)
  {
    if fields.Field? && fields.key != key {
      PutLookup(fields.rest, key, value, k);
    }
  }

  /** Only an ordinary key itself becomes that key. */
  lemma OrdinaryKept(key: Key, seen: Seen, k: Key)
    requires Dense(seen) && Ordinary(k)
    ensures AnonymousKey(key, seen).0 == k <==> key == k
  {
    hide Dense, IsMac, Placeholder;
    if key.StrKey? && IsMac(key.text) {
      PlaceholderDense(key.text, seen);
    }
  }

  /** `w` is `v` anonymized at some point of the walk. */
  ghost predicate Anonymized(v: Json, w: Json, isMacField: bool) {
    exists seen: Seen :: Dense(seen) && w == Anonymous(v, seen, isMacField).0
  }

  ghost predicate AnonymizedMaybe(v: Option<Json>, w: Option<Json>, isMacField: bool) {
    v.Some? == w.Some? && (v.Some? ==> Anonymized(v.value, w.value, isMacField))
  }

  lemma {:induction false} AnonymousLookup(fields: Fields, done: Fields, seen: Seen, k: Key)
    requires Dense(seen) && Distinct(fields) && Ordinary(k)
    ensures var out := AnonymousFields(fields, done, seen).0;
      if Lookup(fields, k).Some? then AnonymizedMaybe(Lookup(fields, k), Lookup(out, k), IsMacKey(k)) else Lookup(out, k) == Lookup(done, k)
    decreases fields
  {
    hide Dense, Anonymous, AnonymousKey, IsMacKey, Put, Ordinary;
    if fields.Field? {
      var (key', seen1) := AnonymousKey(fields.key, seen);
      var isMacField := IsMacKey(fields.key);
      var (value', seen2) := Anonymous(fields.value, seen1, isMacField);
      OrdinaryKept(fields.key, seen, k);
      AnonymousKeyClean(fields.key, seen);
      AnonymousClean(fields.value, seen1, isMacField);
      PutLookup(done, key', value', k);
      AnonymousLookup(fields.rest, Put(done, key', value'), seen2, k);
    }
  }

  /** Whether the end of the path is a known MAC field. */
  predicate EndsAtMac(path: seq<Key>, isMacField: bool) {
    if path == [] then isMacField else IsMacKey(path[|path| - 1])
  }

  /** Following an ordinary path commutes with anonymizing. */
  lemma {:induction false} AnonymousAt(v: Json, w: Json, path: seq<Key>, isMacField: bool)
    requires Anonymized(v, w, isMacField) && Tidy(v, path) && forall k :: k in path ==> Ordinary(k)
    ensures AnonymizedMaybe(At(v, path), At(w, path), EndsAtMac(path, isMacField))
    decreases path
  {
    hide Dense, Ordinary, AnonymousFields, AnonymousItems, AnonymousText, Distinct, IsMacKey;
    if path != [] {
      var seen: Seen :| Dense(seen) && w == Anonymous(v, seen, isMacField).0;
      if v.Obj? {
        AnonymousLookup(v.fields, NoFields, seen, path[0]);
        assert w == Obj(AnonymousFields(v.fields, NoFields, seen).0);
        if Lookup(v.fields, path[0]).Some? {
          AnonymousAt(Lookup(v.fields, path[0]).value, Lookup(w.fields, path[0]).value, path[1..], IsMacKey(path[0]));
        }
      }
    }
  }

  function Count(items: Items): nat {
    match items
    case NoItems => 0
    case Item(_, tail) => 1 + Count(tail)
  }

  lemma {:induction false} AnonymousCount(items: Items, seen: Seen, isMacField: bool)
    ensures Count(AnonymousItems(items, seen, isMacField).0) == Count(items)
  {
    hide Anonymous;
    if items.Item? {
      AnonymousCount(items.tail, Anonymous(items.head, seen, isMacField).1, isMacField);
    }
  }

  /** Lists keep their length. */
  lemma AnonymizedCount(v: Json, w: Json, isMacField: bool)
    requires Anonymized(v, w, isMacField) && v.Arr?
    ensures w.Arr? && Count(w.items) == Count(v.items)
  {
    hide Dense, AnonymousItems;
    var seen: Seen :| Dense(seen) && w == Anonymous(v, seen, isMacField).0;
    AnonymousCount(v.items, seen, isMacField);
  }

  predicate AllOrdinary(fields: Fields) {
    fields.Field? ==> Ordinary(fields.key) && AllOrdinary(fields.rest)
  }

  ghost predicate Apart(fields: Fields, done: Fields) {
    fields.Field? ==> Lookup(done, fields.key).None? && Apart(fields.rest, done)
  }

  /** Mappings with ordinary keys keep their size. */
  lemma {:induction false} AnonymousLength(fields: Fields, done: Fields, seen: Seen)
    requires Distinct(fields) && AllOrdinary(fields) && Apart(fields, done)
    ensures Length(AnonymousFields(fields, done, seen).0) == Length(done) + Length(fields)
    decreases fields
  {
    hide Anonymous, IsMacKey, Put, IsMac;
    if fields.Field? {
      var (value', seen') := Anonymous(fields.value, seen, IsMacKey(fields.key));
      PutNew(done, fields.key, value');
      StillApart(fields.rest, done, fields.key, value');
      AnonymousLength(fields.rest, Put(done, fields.key, value'), seen');
    }
  }

  lemma {:induction false} PutNew(fields: Fields, key: Key, value: Json)
    requires Lookup(fields, key).None?
    ensures Length(Put(fields, key, value)) == Length(fields) + 1
  {
    if fields.Field? {
      PutNew(fields.rest, key, value);
    }
  }

  lemma {:induction false} StillApart(fields: Fields, done: Fields, key: Key, value: Json)
    requires Apart(fields, done) && Lookup(fields, key).None?
    ensures Apart(fields, Put(done, key, value))
  {
    hide Put;
    if fields.Field? {
      PutLookup(done, key, value, fields.key);
      StillApart(fields.rest, done, key, value);
    }
  }

  lemma {:induction false} NothingDone(fields: Fields)
    ensures Apart(fields, NoFields)
  {
    if fields.Field? {
      NothingDone(fields.rest);
    }
  }

  // ---------- Redacting keeps keys ----------

  lemma {:induction false} SameKeysDistinct(a: Fields, b: Fields, k: Key)
    requires SameKeys(a, b)
    ensures Lookup(a, k).Some? == Lookup(b, k).Some? && Distinct(a) == Distinct(b)
  {
    if a.Field? {
      SameKeysDistinct(a.rest, b.rest, k);
      SameKeysDistinct(a.rest, b.rest, a.key);
    }
  }

  lemma {:induction false} FamilyLookup(allow: AllowList, ruleType: Key, fields: Fields, k: Key)
    ensures SameKeys(fields, RedactedFamilyFields(allow, ruleType, fields))
    ensures Lookup(fields, k).Some? ==> Lookup(RedactedFamilyFields(allow, ruleType, fields), k)
                                        == Some(RedactedFamilyValue(allow, ruleType, k, Lookup(fields, k).value))
  {
    hide RedactedFamilyValue;
    if fields.Field? {
      FamilyLookup(allow, ruleType, fields.rest, k);
    }
  }

  lemma {:induction false} FamiliesLookup(allow: AllowList, fields: Fields, k: Key)
    ensures SameKeys(fields, RedactedFamilies(allow, fields))
    ensures Lookup(fields, k).Some? ==>
              Lookup(RedactedFamilies(allow, fields), k) == Some(RedactedFamily(allow, k, Lookup(fields, k).value))
  {
    hide RedactedFamily;
    if fields.Field? {
      FamiliesLookup(allow, fields.rest, k);
    }
  }

  lemma {:induction false} SiteLookup(allow: AllowList, fields: Fields)
    ensures SameKeys(fields, RedactedSiteFields(allow, fields))
    ensures var types := Lookup(fields, RULE_TYPES);
      types.Some? && types.value.Obj? ==>
        Lookup(RedactedSiteFields(allow, fields), RULE_TYPES) == Some(Obj(RedactedFamilies(allow, types.value.fields)))
  {
    hide RedactedFamilies;
    if fields.Field? {
      SiteLookup(allow, fields.rest);
    }
  }

  lemma {:induction false} DocumentLookup(allow: AllowList, fields: Fields, k: Key)
    ensures SameKeys(fields, RedactedDocumentFields(allow, fields))
    ensures Lookup(fields, k).Some? ==>
              Lookup(RedactedDocumentFields(allow, fields), k) == Some(RedactedDocumentValue(allow, k, Lookup(fields, k).value))
  {
    hide RedactedDocumentValue;
    if fields.Field? {
      DocumentLookup(allow, fields.rest, k);
    }
  }

  const SITES := StrKey("sites")
  const RULE_TYPES := StrKey("rule_types")
  const RULES := StrKey("rules")

  /** The site at position `i`, and its ID. */
  function Nth(fields: Fields, i: nat): Fields
    requires i < Length(fields)
    ensures Nth(fields, i).Field?
  {
    if i == 0 then fields else Nth(fields.rest, i - 1)
  }

  /** A site is found under its label. */
  lemma {:induction false} SitesLookup(allow: AllowList, texts: seq<string>, sites: Fields, from: nat, i: nat)
    requires |texts| == from + Length(sites) && i < Length(sites)
    ensures Lookup(RedactedSites(allow, texts, sites, from), SiteLabel(texts, from + i))
            == Some(RedactedSite(allow, Nth(sites, i).value))
    decreases sites
  {
    hide RedactedSite, SiteLabel;
    if i > 0 {
      if SiteLabel(texts, from) == SiteLabel(texts, from + i) {
        LabelsDistinct(texts, from, from + i);
      }
      SitesLookup(allow, texts, sites.rest, from + 1, i - 1);
    }
  }

  /** Labels are ordinary keys, and no two sites get the same one. */
  lemma {:induction false} SitesDistinct(allow: AllowList, texts: seq<string>, sites: Fields, from: nat)
    requires |texts| == from + Length(sites)
    ensures var out := RedactedSites(allow, texts, sites, from);
      && Distinct(out) && AllOrdinary(out)
      && forall k: nat :: k < from ==> Lookup(out, SiteLabel(texts, k)).None?
    decreases sites
  {
    hide RedactedSite, SiteLabel, Ordinary;
    if sites.Field? {
      SitesDistinct(allow, texts, sites.rest, from + 1);
      LabelOrdinary(texts, from);
      forall k: nat | k < from ensures SiteLabel(texts, k) != SiteLabel(texts, from) {
        if SiteLabel(texts, k) == SiteLabel(texts, from) {
          LabelsDistinct(texts, k, from);
        }
      }
    }
  }

  lemma LabelOrdinary(texts: seq<string>, i: nat)
    requires i < |texts|
    ensures Ordinary(SiteLabel(texts, i))
  {
    hide SiteNumber, Decimal;
    assert SiteLabel(texts, i).text[0] == 's';
  }

  // ---------- Sites and rules ----------

  lemma FixedKeysOrdinary()
    ensures Ordinary(SITES) && Ordinary(RULE_TYPES) && Ordinary(RULES)
  {
  }

  predicate HasSites(document: Fields) {
    Distinct(document) && Lookup(document, SITES).Some? && Lookup(document, SITES).value.Obj?
  }

  function SitesOf(document: Fields): Fields
    requires HasSites(document)
  {
    Lookup(document, SITES).value.fields
  }

  lemma {:induction false} PutDistinct(fields: Fields, key: Key, value: Json)
    requires Distinct(fields)
    ensures Distinct(Put(fields, key, value))
  {
    if fields.Field? && fields.key != key {
      PutDistinct(fields.rest, key, value);
      PutLookup(fields.rest, key, value, fields.key);
    }
  }

  lemma RedactedSitesFound(allow: AllowList, document: Fields)
    requires HasSites(document)
    ensures Distinct(RedactedDocument(allow, document))
    ensures Lookup(RedactedDocument(allow, document), SITES) == Some(Obj(RelabelledSites(allow, SitesOf(document))))
  {
    hide RelabelledSites, RedactedDocumentFields, Put;
    DocumentLookup(allow, document, SITES);
    SameKeysDistinct(document, RedactedDocumentFields(allow, document), SITES);
    PutLookup(RedactedDocumentFields(allow, document), StrKey("redacted"), Bool(true), SITES);
    PutDistinct(RedactedDocumentFields(allow, document), StrKey("redacted"), Bool(true));
    assert SITES != StrKey("redacted");
  }

  /** The export has as many sites as the document: none is dropped, none merged with another. */
  lemma SitesKept(allow: AllowList, document: Fields)
    requires HasSites(document)
    ensures var sites := Lookup(Exported(allow, document), SITES);
      sites.Some? && sites.value.Obj? && Length(sites.value.fields) == Length(SitesOf(document))
  {
    hide RelabelledSites, RedactedDocument, AnonymousFields, Dense, Distinct, Ordinary;
    RedactedSitesFound(allow, document);
    EmptyDense();
    FixedKeysOrdinary();
    AnonymousLookup(RedactedDocument(allow, document), NoFields, map[], SITES);
    RelabelledKept(allow, SitesOf(document), Lookup(Exported(allow, document), SITES).value);
  }

  lemma RelabelledKept(allow: AllowList, sites: Fields, out: Json)
    requires Anonymized(Obj(RelabelledSites(allow, sites)), out, IsMacKey(SITES))
    ensures out.Obj? && Length(out.fields) == Length(sites)
  {
    hide Dense, RedactedSites, AnonymousFields, Distinct, AllOrdinary, Apart;
    KeyTextsLength(sites);
    var relabelled := RelabelledSites(allow, sites);
    RedactedSitesLength(allow, KeyTexts(sites), sites, 0);
    SitesDistinct(allow, KeyTexts(sites), sites, 0);
    NothingDone(relabelled);
    var seen: Seen :| Dense(seen) && out == Anonymous(Obj(relabelled), seen, IsMacKey(SITES)).0;
    AnonymousLength(relabelled, NoFields, seen);
  }

  /** Where a site keeps the rules of one type. */
  function RulesPath(ruleType: Key): seq<Key> {
    [RULE_TYPES, ruleType, RULES]
  }

  /** What a site keeps in the family of a rule type is found in the same place of the redacted site. */
  lemma FamilyValueKept(allow: AllowList, site: Json, ruleType: Key, key: Key)
    requires var path := [RULE_TYPES, ruleType, key]; Tidy(site, path) && At(site, path).Some?
    ensures var path := [RULE_TYPES, ruleType, key];
      && Tidy(RedactedSite(allow, site), path)
      && At(RedactedSite(allow, site), path) == Some(RedactedFamilyValue(allow, ruleType, key, At(site, path).value))
  {
    hide RedactedSiteFields, RedactedFamilies, RedactedFamilyFields, RedactedFamilyValue, SameKeys, Distinct, Lookup;
    var families := Unfolded(site, RULE_TYPES, [ruleType, key]);
    var family := Unfolded(families, ruleType, [key]);
    var v := Unfolded(family, key, []);
    SiteLookup(allow, site.fields);
    SameKeysDistinct(site.fields, RedactedSiteFields(allow, site.fields), RULE_TYPES);
    FamiliesLookup(allow, families.fields, ruleType);
    SameKeysDistinct(families.fields, RedactedFamilies(allow, families.fields), ruleType);
    FamilyLookup(allow, ruleType, family.fields, key);
    SameKeysDistinct(family.fields, RedactedFamilyFields(allow, ruleType, family.fields), key);
    var redactedFamily := RedactedFamily(allow, ruleType, family);
    Folded(redactedFamily, key, [], RedactedFamilyValue(allow, ruleType, key, v));
    Folded(Obj(RedactedFamilies(allow, families.fields)), ruleType, [key], redactedFamily);
    Folded(RedactedSite(allow, site), RULE_TYPES, [ruleType, key], Obj(RedactedFamilies(allow, families.fields)));
  }

  lemma Unfolded(v: Json, key: Key, path: seq<Key>) returns (w: Json)
    requires At(v, [key] + path).Some? && Tidy(v, [key] + path)
    ensures v.Obj? && Lookup(v.fields, key) == Some(w) && Distinct(v.fields)
    ensures Tidy(w, path) && At(w, path) == At(v, [key] + path)
  {
    hide Distinct, Lookup;
    assert ([key] + path)[1..] == path;
    w := Lookup(v.fields, key).value;
  }

  lemma Folded(v: Json, key: Key, path: seq<Key>, w: Json)
    requires v.Obj? && Lookup(v.fields, key) == Some(w) && Distinct(v.fields) && Tidy(w, path)
    ensures Tidy(v, [key] + path) && At(v, [key] + path) == At(w, path)
  {
    hide Distinct, Lookup;
    assert ([key] + path)[1..] == path;
  }

  lemma {:induction false} RedactedCount(allow: AllowList, ruleType: Key, rules: Items)
    ensures Count(RedactedRules(allow, ruleType, rules)) == Count(rules)
  {
    hide RedactedRule;
    if rules.Item? {
      RedactedCount(allow, ruleType, rules.tail);
    }
  }

  /** Under its site's label, a value of a family stands redacted and anonymized. */
  lemma FamilyValueFound(allow: AllowList, document: Fields, i: nat, ruleType: Key, key: Key)
    requires HasSites(document) && i < Length(SitesOf(document)) && Ordinary(ruleType) && Ordinary(key)
    requires var site, path := Nth(SitesOf(document), i).value, [RULE_TYPES, ruleType, key];
      Tidy(site, path) && At(site, path).Some?
    ensures |KeyTexts(SitesOf(document))| == Length(SitesOf(document))
    ensures var v := At(Nth(SitesOf(document), i).value, [RULE_TYPES, ruleType, key]).value;
      AnonymizedMaybe(
        Some(RedactedFamilyValue(allow, ruleType, key, v)),
        At(Obj(Exported(allow, document)), [SITES, SiteLabel(KeyTexts(SitesOf(document)), i), RULE_TYPES, ruleType, key]),
        IsMacKey(key))
  {
    hide *;
    var sites := SitesOf(document);
    var site := Nth(sites, i).value;
    KeyTextsLength(sites);
    var end := [RULE_TYPES, ruleType, key];
    FamilyValueKept(allow, site, ruleType, key);
    RedactedValueFound(allow, document, i, end);
    ExportedIsAnonymized(allow, document);
    PathOrdinary(KeyTexts(sites), i, ruleType, key);
    var path := [SITES, SiteLabel(KeyTexts(sites), i)] + end;
    assert path == [SITES, SiteLabel(KeyTexts(sites), i), RULE_TYPES, ruleType, key];
    AnonymousAt(Obj(RedactedDocument(allow, document)), Obj(Exported(allow, document)), path, false);
    EndIsLast(path, key);
  }

  lemma EndIsLast(path: seq<Key>, key: Key)
    requires path != [] && path[|path| - 1] == key
    ensures EndsAtMac(path, false) == IsMacKey(key)
  {
    hide IsMacKey;
  }

  /** Under its site's label, each family of an ordinary type has as many rules as in the document. */
  lemma RulesKept(allow: AllowList, document: Fields, i: nat, ruleType: Key)
    requires HasSites(document) && i < Length(SitesOf(document)) && Ordinary(ruleType)
    requires var site := Nth(SitesOf(document), i).value;
      && Tidy(site, RulesPath(ruleType))
      && At(site, RulesPath(ruleType)).Some? && At(site, RulesPath(ruleType)).value.Arr?
    ensures |KeyTexts(SitesOf(document))| == Length(SitesOf(document))
    ensures var rules := At(Nth(SitesOf(document), i).value, RulesPath(ruleType)).value;
      var exported := At(Obj(Exported(allow, document)), [SITES, SiteLabel(KeyTexts(SitesOf(document)), i)] + RulesPath(ruleType));
      exported.Some? && exported.value.Arr? && Count(exported.value.items) == Count(rules.items)
  {
    hide *;
    RulesPathIs(ruleType);
    FixedKeysOrdinary();
    FamilyValueFound(allow, document, i, ruleType, RULES);
    var rules := At(Nth(SitesOf(document), i).value, RulesPath(ruleType)).value;
    var label_ := SiteLabel(KeyTexts(SitesOf(document)), i);
    assert [SITES, label_] + [RULE_TYPES, ruleType, RULES] == [SITES, label_, RULE_TYPES, ruleType, RULES];
    RulesRedacted(allow, ruleType, rules);
    RulesAnonymized(
      Arr(RedactedRules(allow, ruleType, rules.items)),
      At(Obj(Exported(allow, document)), [SITES, label_, RULE_TYPES, ruleType, RULES]), IsMacKey(RULES));
    RedactedCount(allow, ruleType, rules.items);
  }

  lemma RulesPathIs(ruleType: Key)
    ensures RulesPath(ruleType) == [RULE_TYPES, ruleType, RULES]
  {
  }

  lemma RulesRedacted(allow: AllowList, ruleType: Key, rules: Json)
    requires rules.Arr?
    ensures RedactedFamilyValue(allow, ruleType, RULES, rules) == Arr(RedactedRules(allow, ruleType, rules.items))
  {
    hide RedactedRules;
    assert RULES != StrKey("status") && RULES != StrKey("count");
  }

  lemma RulesAnonymized(v: Json, w: Option<Json>, isMacField: bool)
    requires v.Arr? && AnonymizedMaybe(Some(v), w, isMacField)
    ensures w.Some? && w.value.Arr? && Count(w.value.items) == Count(v.items)
  {
    hide Anonymized;
    AnonymizedCount(v, w.value, isMacField);
  }

  lemma ExportedIsAnonymized(allow: AllowList, document: Fields)
    ensures Anonymized(Obj(RedactedDocument(allow, document)), Obj(Exported(allow, document)), false)
  {
    hide RedactedDocument, AnonymousFields, Dense;
    EmptyDense();
    assert Obj(Exported(allow, document)) == Anonymous(Obj(RedactedDocument(allow, document)), map[], false).0;
  }

  lemma PathOrdinary(texts: seq<string>, i: nat, ruleType: Key, key: Key)
    requires i < |texts| && Ordinary(ruleType) && Ordinary(key)
    ensures forall k :: k in [SITES, SiteLabel(texts, i)] + [RULE_TYPES, ruleType, key] ==> Ordinary(k)
  {
    hide Ordinary, SiteLabel;
    FixedKeysOrdinary();
    LabelOrdinary(texts, i);
  }

  lemma RedactedValueFound(allow: AllowList, document: Fields, i: nat, path: seq<Key>)
    requires HasSites(document) && i < Length(SitesOf(document))
    requires Tidy(RedactedSite(allow, Nth(SitesOf(document), i).value), path)
    ensures |KeyTexts(SitesOf(document))| == Length(SitesOf(document))
    ensures var full := [SITES, SiteLabel(KeyTexts(SitesOf(document)), i)] + path;
      && Tidy(Obj(RedactedDocument(allow, document)), full)
      && At(Obj(RedactedDocument(allow, document)), full) == At(RedactedSite(allow, Nth(SitesOf(document), i).value), path)
  {
    hide RedactedDocument, RedactedSite, RedactedSites, SiteLabel, Lookup, Distinct, Tidy, At, KeyTexts;
    var sites := SitesOf(document);
    KeyTextsLength(sites);
    var texts := KeyTexts(sites);
    var name := SiteLabel(texts, i);
    RedactedSitesFound(allow, document);
    SitesLookup(allow, texts, sites, 0, i);
    SitesDistinct(allow, texts, sites, 0);
    Folded(Obj(RelabelledSites(allow, sites)), name, path, RedactedSite(allow, Nth(sites, i).value));
    Folded(Obj(RedactedDocument(allow, document)), SITES, [name] + path, Obj(RelabelledSites(allow, sites)));
    assert [SITES] + ([name] + path) == [SITES, name] + path;
  }
}

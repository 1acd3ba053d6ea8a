/** What a redacted rule export depends on: exactly the allow-listed safe values, the keys and the order of the sites. */
module ExportSecrecy {
  import opened Text
  import opened MacPseudonyms
  import opened RuleExport

  // ---------- Safe values ----------

  predicate Hidden(v: Json) {
    (v.Str? && !IsSafeText(v.text)) || (v.Obj? && !AllKeysSafe(v.fields))
  }

  /** The two values differ only where a value is hidden. */
  predicate Agree(a: Json, b: Json) {
    if Hidden(a) || Hidden(b) then Hidden(a) && Hidden(b)
    else if a.Arr? && b.Arr? then ItemsAgree(a.items, b.items)
    else if a.Obj? && b.Obj? then FieldsAgree(a.fields, b.fields)
    else a == b
  }

  predicate ItemsAgree(a: Items, b: Items) {
    if a.Item? && b.Item? then Agree(a.head, b.head) && ItemsAgree(a.tail, b.tail) else a == b
  }

  predicate FieldsAgree(a: Fields, b: Fields) {
    if a.Field? && b.Field? then a.key == b.key && Agree(a.value, b.value) && FieldsAgree(a.rest, b.rest) else a == b
  }

  lemma {:induction false} SafeValueReveals(a: Json, b: Json)
    ensures SafeValue(a) == SafeValue(b) <==> Agree(a, b)
  {
    hide IsSafeText, AllKeysSafe, SafeItems, SafeFields, ItemsAgree, FieldsAgree;
    GoneIsUnsafe();
    match (a, b)
    case (Arr(_), Arr(_)) => SafeItemsReveal(a.items, b.items);
    case (Obj(_), Obj(_)) => SafeFieldsReveal(a.fields, b.fields);
    case _ =>
  }

  lemma GoneIsUnsafe()
    ensures !IsSafeText(REDACTED)
  {
    assert REDACTED[0] == '*' && '*' in REDACTED;
  }

  lemma {:induction false} SafeItemsReveal(a: Items, b: Items)
    ensures SafeItems(a) == SafeItems(b) <==> ItemsAgree(a, b)
  {
    hide SafeValue, Agree;
    if a.Item? && b.Item? {
      SafeValueReveals(a.head, b.head);
      SafeItemsReveal(a.tail, b.tail);
    }
  }

  lemma {:induction false} SafeFieldsReveal(a: Fields, b: Fields)
    ensures SafeFields(a) == SafeFields(b) <==> FieldsAgree(a, b)
  {
    hide SafeValue, Agree;
    if a.Field? && b.Field? {
      SafeValueReveals(a.value, b.value);
      SafeFieldsReveal(a.rest, b.rest);
    }
  }

  // ---------- Rules, families and sites ----------

  predicate Readable(rule: Json) {
    rule.Obj? && AllKeysSafe(rule.fields)
  }

  /** Unreadable rules look alike; readable ones need the same keys and agreement on the kept ones. */
  predicate RulesAgree(allow: AllowList, ruleType: Key, a: Json, b: Json) {
    if Readable(a) && Readable(b) then RuleFieldsAgree(allow, ruleType, a.fields, b.fields)
    else !Readable(a) && !Readable(b)
  }

  predicate RuleFieldsAgree(allow: AllowList, ruleType: Key, a: Fields, b: Fields) {
    if a.Field? && b.Field?
    then a.key == b.key && (IsKept(allow, ruleType, a.key) ==> Agree(a.value, b.value))
         && RuleFieldsAgree(allow, ruleType, a.rest, b.rest)
    else a == b
  }

  predicate RuleListsAgree(allow: AllowList, ruleType: Key, a: Items, b: Items) {
    if a.Item? && b.Item?
    then RulesAgree(allow, ruleType, a.head, b.head) && RuleListsAgree(allow, ruleType, a.tail, b.tail)
    else a == b
  }

  predicate FamiliesAgree(allow: AllowList, ruleType: Key, a: Json, b: Json) {
    if a.Obj? && b.Obj? then FamilyFieldsAgree(allow, ruleType, a.fields, b.fields) else !a.Obj? && !b.Obj?
  }

  predicate FamilyFieldsAgree(allow: AllowList, ruleType: Key, a: Fields, b: Fields) {
    if a.Field? && b.Field?
    then a.key == b.key
         && (a.key == StrKey("status") || a.key == StrKey("count") ==> Agree(a.value, b.value))
         && (a.key == StrKey("rules") ==> MaybeRulesAgree(allow, ruleType, a.value, b.value))
         && FamilyFieldsAgree(allow, ruleType, a.rest, b.rest)
    else a == b
  }

  predicate MaybeRulesAgree(allow: AllowList, ruleType: Key, a: Json, b: Json) {
    if a.Arr? && b.Arr? then RuleListsAgree(allow, ruleType, a.items, b.items) else !a.Arr? && !b.Arr?
  }

  predicate FamilyMapsAgree(allow: AllowList, a: Fields, b: Fields) {
    if a.Field? && b.Field?
    then a.key == b.key && FamiliesAgree(allow, a.key, a.value, b.value) && FamilyMapsAgree(allow, a.rest, b.rest)
    else a == b
  }

  predicate SitesAgree(allow: AllowList, a: Json, b: Json) {
    if a.Obj? && b.Obj? then SiteFieldsAgree(allow, a.fields, b.fields) else !a.Obj? && !b.Obj?
  }

  predicate SiteFieldsAgree(allow: AllowList, a: Fields, b: Fields) {
    if a.Field? && b.Field?
    then a.key == b.key
         && (a.key == StrKey("rule_types") ==>
               if a.value.Obj? && b.value.Obj? then FamilyMapsAgree(allow, a.value.fields, b.value.fields)
               else !a.value.Obj? && !b.value.Obj?)
         && SiteFieldsAgree(allow, a.rest, b.rest)
    else a == b
  }

  lemma {:induction false} RuleFieldsReveal(allow: AllowList, ruleType: Key, a: Fields, b: Fields)
    ensures RedactedRuleFields(allow, ruleType, a) == RedactedRuleFields(allow, ruleType, b)
            <==> RuleFieldsAgree(allow, ruleType, a, b)
  {
    hide SafeValue, Agree, IsKept;
    if a.Field? && b.Field? {
      SafeValueReveals(a.value, b.value);
      RuleFieldsReveal(allow, ruleType, a.rest, b.rest);
    }
  }

  lemma RuleReveals(allow: AllowList, ruleType: Key, a: Json, b: Json)
    ensures RedactedRule(allow, ruleType, a) == RedactedRule(allow, ruleType, b) <==> RulesAgree(allow, ruleType, a, b)
  {
    hide RedactedRuleFields, RuleFieldsAgree, AllKeysSafe;
    if a.Obj? && b.Obj? {
      RuleFieldsReveal(allow, ruleType, a.fields, b.fields);
    }
  }

  lemma {:induction false} RuleListReveals(allow: AllowList, ruleType: Key, a: Items, b: Items)
    ensures RedactedRules(allow, ruleType, a) == RedactedRules(allow, ruleType, b)
            <==> RuleListsAgree(allow, ruleType, a, b)
  {
    hide RedactedRule, RulesAgree;
    if a.Item? && b.Item? {
      RuleReveals(allow, ruleType, a.head, b.head);
      RuleListReveals(allow, ruleType, a.tail, b.tail);
    }
  }

  lemma FamilyValueReveals(allow: AllowList, ruleType: Key, key: Key, a: Json, b: Json)
    ensures RedactedFamilyValue(allow, ruleType, key, a) == RedactedFamilyValue(allow, ruleType, key, b)
            <==> (key == StrKey("status") || key == StrKey("count") ==> Agree(a, b))
                 && (key == StrKey("rules") ==> MaybeRulesAgree(allow, ruleType, a, b))
  {
    hide SafeValue, Agree, RedactedRules, RuleListsAgree;
    SafeValueReveals(a, b);
    if a.Arr? && b.Arr? {
      RuleListReveals(allow, ruleType, a.items, b.items);
    }
  }

  lemma {:induction false} FamilyFieldsReveal(allow: AllowList, ruleType: Key, a: Fields, b: Fields)
    ensures RedactedFamilyFields(allow, ruleType, a) == RedactedFamilyFields(allow, ruleType, b)
            <==> FamilyFieldsAgree(allow, ruleType, a, b)
  {
    hide RedactedFamilyValue, Agree, MaybeRulesAgree;
    if a.Field? && b.Field? {
      FamilyValueReveals(allow, ruleType, a.key, a.value, b.value);
      FamilyFieldsReveal(allow, ruleType, a.rest, b.rest);
    }
  }

  lemma {:induction false} FamilyMapReveals(allow: AllowList, a: Fields, b: Fields)
    ensures RedactedFamilies(allow, a) == RedactedFamilies(allow, b) <==> FamilyMapsAgree(allow, a, b)
  {
    hide RedactedFamilyFields, FamilyFieldsAgree;
    if a.Field? && b.Field? {
      if a.value.Obj? && b.value.Obj? {
        FamilyFieldsReveal(allow, a.key, a.value.fields, b.value.fields);
      }
      FamilyMapReveals(allow, a.rest, b.rest);
    }
  }

  lemma {:induction false} SiteFieldsReveal(allow: AllowList, a: Fields, b: Fields)
    ensures RedactedSiteFields(allow, a) == RedactedSiteFields(allow, b) <==> SiteFieldsAgree(allow, a, b)
  {
    hide RedactedFamilies, FamilyMapsAgree;
    if a.Field? && b.Field? {
      if a.value.Obj? && b.value.Obj? {
        FamilyMapReveals(allow, a.value.fields, b.value.fields);
      }
      SiteFieldsReveal(allow, a.rest, b.rest);
    }
  }

  /** A redacted site shows exactly its keys, its rule types and what the kept rule values agree on. */
  lemma SiteReveals(allow: AllowList, a: Json, b: Json)
    ensures RedactedSite(allow, a) == RedactedSite(allow, b) <==> SitesAgree(allow, a, b)
  {
    hide RedactedSiteFields, SiteFieldsAgree;
    if a.Obj? && b.Obj? {
      SiteFieldsReveal(allow, a.fields, b.fields);
    }
  }

  // ---------- Numbering the sites ----------

  lemma {:induction false} LessTransitive(a: string, b: string, c: string)
    requires Less(a, b) && Less(b, c)
    ensures Less(a, c)
  {
    if a != "" && a[0] == b[0] == c[0] {
      LessTransitive(a[1..], b[1..], c[1..]);
    }
  }

  lemma {:induction false} LessTotal(a: string, b: string)
    ensures Less(a, b) || a == b || Less(b, a)
    ensures !(Less(a, b) && Less(b, a)) && !Less(a, a)
  {
    if a != "" && b != "" {
      LessTotal(a[1..], b[1..]);
      assert a == [a[0]] + a[1..] && b == [b[0]] + b[1..];
    }
    if a != "" {
      LessTotal(a[1..], a[1..]);
    }
  }

  /** Positions are strictly ordered: sorting is unambiguous. */
  lemma BeforeTransitive(texts: seq<string>, i: nat, j: nat, k: nat)
    requires i < |texts| && j < |texts| && k < |texts|
    requires Before(texts, i, j) && Before(texts, j, k)
    ensures Before(texts, i, k)
  {
    hide Less;
    if Less(texts[i], texts[j]) && Less(texts[j], texts[k]) {
      LessTransitive(texts[i], texts[j], texts[k]);
    }
  }

  lemma BeforeTotal(texts: seq<string>, i: nat, j: nat)
    requires i < |texts| && j < |texts|
    ensures Before(texts, i, j) || i == j || Before(texts, j, i)
    ensures !(Before(texts, i, j) && Before(texts, j, i)) && !Before(texts, i, i)
  {
    hide Less;
    LessTotal(texts[i], texts[j]);
  }

  lemma {:induction false} CountGrows(texts: seq<string>, i: nat, j: nat, n: nat)
    requires i < |texts| && j < |texts| && n <= |texts| && Before(texts, i, j)
    ensures CountBefore(texts, i, n) + (if i < n then 1 else 0) <= CountBefore(texts, j, n)
  {
    hide Before;
    if n > 0 {
      CountGrows(texts, i, j, n - 1);
      BeforeTotal(texts, i, i);
      if Before(texts, n - 1, i) {
        BeforeTransitive(texts, n - 1, i, j);
      }
    }
  }

  /** Sites are numbered in the sorted order of their IDs, so no two share a number. */
  lemma NumbersFollowOrder(texts: seq<string>, i: nat, j: nat)
    requires i < |texts| && j < |texts|
    ensures SiteNumber(texts, i) < SiteNumber(texts, j) <==> Before(texts, i, j)
    ensures SiteNumber(texts, i) == SiteNumber(texts, j) ==> i == j
    ensures 1 <= SiteNumber(texts, i) <= |texts|
  {
    hide Before;
    BeforeTotal(texts, i, j);
    if Before(texts, i, j) {
      CountGrows(texts, i, j, |texts|);
    } else if Before(texts, j, i) {
      CountGrows(texts, j, i, |texts|);
    }
    CountBelow(texts, i, |texts|);
  }

  lemma {:induction false} CountBelow(texts: seq<string>, i: nat, n: nat)
    requires i < |texts| && n <= |texts|
    ensures i < n ==> CountBefore(texts, i, n) < n
  {
    hide Before;
    if n > 0 {
      BeforeTotal(texts, i, i);
      CountBelow(texts, i, n - 1);
    }
  }

  lemma LabelsDistinct(texts: seq<string>, i: nat, j: nat)
    requires i < |texts| && j < |texts| && SiteLabel(texts, i) == SiteLabel(texts, j)
    ensures i == j
  {
    hide SiteNumber;
    LabelNamesNumber(SiteNumber(texts, i), SiteNumber(texts, j));
    NumbersFollowOrder(texts, i, j);
  }

  lemma LabelNamesNumber(m: nat, n: nat)
    requires "site-" + Decimal(m) == "site-" + Decimal(n)
    ensures m == n
  {
    assert ("site-" + Decimal(m))[5..] == Decimal(m) && ("site-" + Decimal(n))[5..] == Decimal(n);
    DecimalInjective(m, n);
  }

  // ---------- The sites and the whole document ----------

  /** Renaming site IDs without changing how they sort. */
  ghost predicate SameOrder(p: seq<string>, q: seq<string>) {
    |p| == |q| && forall i: nat, j: nat :: i < |p| && j < |p| ==> Before(p, i, j) == Before(q, i, j)
  }

  lemma {:induction false} SameCounts(p: seq<string>, q: seq<string>, i: nat, n: nat)
    requires SameOrder(p, q) && i < |p| && n <= |p|
    ensures CountBefore(p, i, n) == CountBefore(q, i, n)
  {
    hide Before;
    if n > 0 {
      SameCounts(p, q, i, n - 1);
      assert Before(p, n - 1, i) == Before(q, n - 1, i);
    }
  }

  /** The numbers tell exactly the order of the IDs. */
  lemma NumbersRevealOrder(p: seq<string>, q: seq<string>)
    requires |p| == |q|
    ensures SameOrder(p, q) <==> forall i: nat :: i < |p| ==> SiteLabel(p, i) == SiteLabel(q, i)
  {
    hide Before, SiteNumber;
    if SameOrder(p, q) {
      forall i: nat | i < |p| ensures SiteLabel(p, i) == SiteLabel(q, i) {
        SameNumber(p, q, i);
      }
    }
    if forall i: nat :: i < |p| ==> SiteLabel(p, i) == SiteLabel(q, i) {
      forall i: nat, j: nat | i < |p| && j < |p| ensures Before(p, i, j) == Before(q, i, j) {
        assert SiteLabel(p, i) == SiteLabel(q, i) && SiteLabel(p, j) == SiteLabel(q, j);
        LabelNamesNumber(SiteNumber(p, i), SiteNumber(q, i));
        LabelNamesNumber(SiteNumber(p, j), SiteNumber(q, j));
        NumbersFollowOrder(p, i, j);
        NumbersFollowOrder(q, i, j);
      }
    }
  }

  lemma SameNumber(p: seq<string>, q: seq<string>, i: nat)
    requires SameOrder(p, q) && i < |p|
    ensures SiteNumber(p, i) == SiteNumber(q, i)
  {
    hide SameOrder;
    assert |p| == |q| by { SameOrderLengths(p, q); }
    SameCounts(p, q, i, |p|);
  }

  lemma SameOrderLengths(p: seq<string>, q: seq<string>)
    requires SameOrder(p, q)
    ensures |p| == |q|
  {
  }

  predicate SitewiseAgree(allow: AllowList, a: Fields, b: Fields) {
    if a.Field? && b.Field? then SitesAgree(allow, a.value, b.value) && SitewiseAgree(allow, a.rest, b.rest)
    else a.NoFields? && b.NoFields?
  }

  lemma {:induction false} RedactedSitesReveal(allow: AllowList, p: seq<string>, q: seq<string>, a: Fields, b: Fields, i: nat)
    requires |p| == |q| == i + Length(a) && Length(a) == Length(b)
    ensures RedactedSites(allow, p, a, i) == RedactedSites(allow, q, b, i)
            <==> SitewiseAgree(allow, a, b) && forall k :: i <= k < |p| ==> SiteLabel(p, k) == SiteLabel(q, k)
    decreases a
  {
    hide RedactedSite, SitesAgree, SiteLabel;
    if a.Field? && b.Field? {
      SiteReveals(allow, a.value, b.value);
      RedactedSitesReveal(allow, p, q, a.rest, b.rest, i + 1);
    }
  }

  lemma {:induction false} RedactedSitesLength(allow: AllowList, texts: seq<string>, sites: Fields, i: nat)
    requires |texts| == i + Length(sites)
    ensures Length(RedactedSites(allow, texts, sites, i)) == Length(sites)
    decreases sites
  {
    hide RedactedSite, SiteLabel;
    if sites.Field? {
      RedactedSitesLength(allow, texts, sites.rest, i + 1);
    }
  }

  lemma {:induction false} SitewiseLengths(allow: AllowList, a: Fields, b: Fields)
    requires SitewiseAgree(allow, a, b)
    ensures Length(a) == Length(b)
  {
    if a.Field? {
      SitewiseLengths(allow, a.rest, b.rest);
    }
  }

  /** Site IDs show through only in how they sort. */
  ghost predicate SiteMapsAgree(allow: AllowList, a: Fields, b: Fields) {
    SitewiseAgree(allow, a, b) && SameOrder(KeyTexts(a), KeyTexts(b))
  }

  lemma RelabelledSitesReveal(allow: AllowList, a: Fields, b: Fields)
    ensures RelabelledSites(allow, a) == RelabelledSites(allow, b) <==> SiteMapsAgree(allow, a, b)
  {
    hide RedactedSites, SitewiseAgree, SameOrder, SiteLabel;
    KeyTextsLength(a);
    KeyTextsLength(b);
    RedactedSitesLength(allow, KeyTexts(a), a, 0);
    RedactedSitesLength(allow, KeyTexts(b), b, 0);
    if Length(a) == Length(b) {
      RedactedSitesReveal(allow, KeyTexts(a), KeyTexts(b), a, b, 0);
      NumbersRevealOrder(KeyTexts(a), KeyTexts(b));
    } else if SitewiseAgree(allow, a, b) {
      SitewiseLengths(allow, a, b);
    }
  }

  predicate SameKeys(a: Fields, b: Fields) {
    if a.Field? && b.Field? then a.key == b.key && SameKeys(a.rest, b.rest) else a == b
  }

  lemma {:induction false} WipedReveals(a: Fields, b: Fields)
    ensures Wiped(a) == Wiped(b) <==> SameKeys(a, b)
  {
    if a.Field? && b.Field? {
      WipedReveals(a.rest, b.rest);
    }
  }

  ghost predicate DocumentValuesAgree(allow: AllowList, key: Key, a: Json, b: Json) {
    && (key == StrKey("format_version") || key == StrKey("generated_at") ==> a == b)
    && (key == StrKey("console") || key == StrKey("sites") ==> a.Obj? == b.Obj?)
    && (key == StrKey("console") && a.Obj? && b.Obj? ==> SameKeys(a.fields, b.fields))
    && (key == StrKey("sites") && a.Obj? && b.Obj? ==> SiteMapsAgree(allow, a.fields, b.fields))
  }

  /** The documents differ only in values that are not allow-listed or not safe, in names, and in the spelling of site IDs. */
  ghost predicate DocumentsAgree(allow: AllowList, a: Fields, b: Fields) {
    if a.Field? && b.Field?
    then a.key == b.key && DocumentValuesAgree(allow, a.key, a.value, b.value) && DocumentsAgree(allow, a.rest, b.rest)
    else a == b
  }

  lemma DocumentValueReveals(allow: AllowList, key: Key, a: Json, b: Json)
    ensures RedactedDocumentValue(allow, key, a) == RedactedDocumentValue(allow, key, b)
            <==> DocumentValuesAgree(allow, key, a, b)
  {
    hide RelabelledSites, SiteMapsAgree, SameKeys, Wiped;
    if a.Obj? && b.Obj? {
      RelabelledSitesReveal(allow, a.fields, b.fields);
      WipedReveals(a.fields, b.fields);
    }
  }

  /** Redaction identifies two documents exactly when they agree on everything that may be shown. */
  lemma {:induction false} RedactionReveals(allow: AllowList, a: Fields, b: Fields)
    ensures RedactedDocumentFields(allow, a) == RedactedDocumentFields(allow, b) <==> DocumentsAgree(allow, a, b)
  {
    hide RedactedDocumentValue, DocumentValuesAgree;
    if a.Field? && b.Field? {
      DocumentValueReveals(allow, a.key, a.value, b.value);
      RedactionReveals(allow, a.rest, b.rest);
    }
  }

  /** Nothing hidden influences the export: documents that agree give the same export, pseudonyms included. */
  lemma NonInterference(allow: AllowList, a: Fields, b: Fields)
    requires DocumentsAgree(allow, a, b)
    ensures Exported(allow, a) == Exported(allow, b)
  {
    hide RedactedDocumentFields, DocumentsAgree, AnonymousFields, Put;
    RedactionReveals(allow, a, b);
  }
}

/** What a valid catalog is, said of its rows. */
module ValidationMeaning {
  import opened Text
  import opened Catalog
  import opened Validation

  /** Names, plurals and slugs are filled in, and non-blank codes and slugs are not shared. */
  lemma ClassesMean(c: ResourceCatalog)
    ensures ClassesValid(c) <==>
      && (forall k :: k in c.classes ==> TrimSpace(k.name) != "" && TrimSpace(k.plural) != "" && TrimSpace(k.slug) != "")
      && (forall i, j :: 0 <= i < j < |c.classes| && Canonical(c.classes[i].code) != "" ==> Canonical(c.classes[i].code) != Canonical(c.classes[j].code))
      && (forall i, j :: 0 <= i < j < |c.classes| && Canonical(c.classes[i].slug) != "" ==> Canonical(c.classes[i].slug) != Canonical(c.classes[j].slug))
  {
    hide Canonical, TrimSpace;
    var codes, slugs := ClassCodes(c.classes), ClassSlugs(c.classes);
    assert forall i :: 0 <= i < |c.classes| ==> codes[i] == Canonical(c.classes[i].code) && slugs[i] == Canonical(c.classes[i].slug);
  }

  /** Every family's class exists, and no two families share class and code as they are joined. */
  lemma FamiliesMean(c: ResourceCatalog)
    ensures FamiliesValid(c) <==>
      && (forall f :: f in c.families ==> exists k :: k in c.classes && Canonical(k.code) == Canonical(f.classCode))
      && (forall i, j :: 0 <= i < j < |c.families| ==>
            Canonical(c.families[i].classCode) + "|" + Canonical(c.families[i].code) != Canonical(c.families[j].classCode) + "|" + Canonical(c.families[j].code))
  {
    hide Canonical;
    var keys := FamilyKeys(c.families);
    assert forall i :: 0 <= i < |c.families| ==> keys[i] == Canonical(c.families[i].classCode) + "|" + Canonical(c.families[i].code) && c.families[i] in c.families;
    assert forall f :: HasClassCode(c, f) <==> exists k :: k in c.classes && Canonical(k.code) == Canonical(f);
    hide HasClassCode, FamilyKey;
  }

  predicate FamilyExists(c: ResourceCatalog, klass: string, family: string) {
    exists f :: f in c.families && Canonical(f.classCode) == Canonical(klass) && Canonical(f.code) == Canonical(family)
  }

  predicate TypeExists(c: ResourceCatalog, klass: string, family: string, typ: string) {
    exists t :: t in c.types && Canonical(t.classCode) == Canonical(klass) && Canonical(t.familyCode) == Canonical(family) && Canonical(t.code) == Canonical(typ)
  }

  /** Types and bindings sit in families that exist; a binding's type and option set exist if they are
      named; its rules are stated exactly for the conditional mode. */
  lemma TypesAndBindingsMean(c: ResourceCatalog)
    ensures TypesValid(c) <==> forall t :: t in c.types ==> FamilyExists(c, t.classCode, t.familyCode)
    ensures AttributesKnown(c) <==> forall a :: a in c.attributes ==>
      && FamilyExists(c, a.classCode, a.familyCode)
      && (a.typeCode != "" ==> TypeExists(c, a.classCode, a.familyCode, a.typeCode))
      && (a.optionSet != "" ==> exists o :: o in c.options && Canonical(o.optionSet) == Canonical(a.optionSet))
    ensures ModesMatchRules(c) <==> forall a :: a in c.attributes ==> (a.mode == Conditional <==> |a.rules| > 0)
  {
    hide Canonical;
    assert forall k, f :: HasFamilyIn(c, k, f) <==> FamilyExists(c, k, f);
    hide HasFamilyIn, FamilyExists;
  }

  /** Units are filled in, with codes and symbols of their own, and every policy's unit exists. */
  lemma UnitsMean(c: ResourceCatalog)
    ensures UnitsValid(c) <==>
      && (forall u :: u in c.units ==> TrimSpace(u.code) != "" && TrimSpace(u.name) != "" && TrimSpace(u.symbol) != "" && TrimSpace(u.dimension) != "")
      && (forall i, j :: 0 <= i < j < |c.units| && Canonical(c.units[i].code) != "" ==> Canonical(c.units[i].code) != Canonical(c.units[j].code))
      && (forall i, j :: 0 <= i < j < |c.units| && Canonical(c.units[i].symbol) != "" ==> Canonical(c.units[i].symbol) != Canonical(c.units[j].symbol))
    ensures PoliciesKnown(c) <==> forall p :: p in c.unitPolicies ==> exists u :: u in c.units && Canonical(u.code) == Canonical(p.unitCode)
  {
    hide Canonical, TrimSpace;
    var codes, symbols := UnitCodes(c.units), UnitSymbols(c.units);
    assert forall i :: 0 <= i < |c.units| ==> codes[i] == Canonical(c.units[i].code) && symbols[i] == Canonical(c.units[i].symbol);
  }

  /** The last class row of a code is active. */
  predicate LastClassOn(classes: seq<ResourceClass>, code: string) {
    exists i :: 0 <= i < |classes| && Canonical(classes[i].code) == code && classes[i].active &&
      forall j :: i < j < |classes| ==> Canonical(classes[j].code) != code
  }

  predicate LastFamilyOn(families: seq<ResourceFamily>, key: string) {
    exists i :: 0 <= i < |families| && FamilyKey(families[i].classCode, families[i].code) == key && families[i].active &&
      forall j :: i < j < |families| ==> FamilyKey(families[j].classCode, families[j].code) != key
  }

  lemma {:induction false} ClassActiveMeans(classes: seq<ResourceClass>, code: string)
    ensures ClassActive(classes, code) <==> LastClassOn(classes, code)
  {
    hide Canonical;
    if classes != [] {
      var n := |classes| - 1;
      ClassActiveMeans(classes[..n], code);
      if Canonical(classes[n].code) != code && LastClassOn(classes[..n], code) {
        var i :| 0 <= i < n && Canonical(classes[..n][i].code) == code && classes[..n][i].active && forall j :: i < j < n ==> Canonical(classes[..n][j].code) != code;
        assert forall j :: i < j < n ==> classes[j] == classes[..n][j];
      }
    }
  }

  lemma {:induction false} FamilyActiveMeans(families: seq<ResourceFamily>, key: string)
    ensures FamilyActive(families, key) <==> LastFamilyOn(families, key)
  {
    hide FamilyKey;
    if families != [] {
      var n := |families| - 1;
      FamilyActiveMeans(families[..n], key);
      if FamilyKey(families[n].classCode, families[n].code) != key && LastFamilyOn(families[..n], key) {
        var i :| 0 <= i < n && FamilyKey(families[..n][i].classCode, families[..n][i].code) == key && families[..n][i].active &&
          forall j :: i < j < n ==> FamilyKey(families[..n][j].classCode, families[..n][j].code) != key;
        assert forall j :: i < j < n ==> families[j] == families[..n][j];
      }
    }
  }

  /** Active families and types hang under rows whose last one of the code is active. */
  lemma HierarchyMeans(c: ResourceCatalog)
    ensures HierarchyValid(c) <==>
      && (forall f :: f in c.families && f.active ==> LastClassOn(c.classes, Canonical(f.classCode)))
      && (forall t :: t in c.types && t.active ==> LastFamilyOn(c.families, FamilyKey(t.classCode, t.familyCode)))
  {
    forall code ensures ClassActive(c.classes, code) <==> LastClassOn(c.classes, code) { ClassActiveMeans(c.classes, code); }
    forall key ensures FamilyActive(c.families, key) <==> LastFamilyOn(c.families, key) { FamilyActiveMeans(c.families, key); }
    hide ClassActive, FamilyActive, LastClassOn, LastFamilyOn, Canonical, FamilyKey;
  }

  /** A catalog is valid exactly when all of the above holds. */
  lemma ValidMeans(c: ResourceCatalog)
    ensures Valid(c) <==>
      && ClassesValid(c) && FamiliesValid(c) && TypesValid(c) && AttributesKnown(c) && ModesMatchRules(c) && UnitsValid(c) && PoliciesKnown(c) && HierarchyValid(c)
  {
    hide ClassesValid, FamiliesKnown, FamiliesUnique, TypesValid, AttributesKnown, ModesMatchRules, UnitsValid, PoliciesKnown, HierarchyValid;
  }
}

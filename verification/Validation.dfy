/** Structural validation of a whole catalog, and the hierarchy it guarantees. */
module Validation {
  import opened Text
  import opened Catalog
  import opened Resource

  predicate HasClassCode(c: ResourceCatalog, code: string) {
    exists k :: k in c.classes && Canonical(k.code) == Canonical(code)
  }

  predicate FamilyIs(f: ResourceFamily, classCode: string, familyCode: string) {
    Canonical(f.classCode) == Canonical(classCode) && Canonical(f.code) == Canonical(familyCode)
  }

  predicate HasFamilyIn(c: ResourceCatalog, classCode: string, familyCode: string) {
    exists f :: f in c.families && FamilyIs(f, classCode, familyCode)
  }

  predicate TypeIs(t: ResourceType, classCode: string, familyCode: string, typeCode: string) {
    Canonical(t.classCode) == Canonical(classCode) && Canonical(t.familyCode) == Canonical(familyCode) && Canonical(t.code) == Canonical(typeCode)
  }

  predicate HasTypeIn(c: ResourceCatalog, classCode: string, familyCode: string, typeCode: string) {
    exists t :: t in c.types && TypeIs(t, classCode, familyCode, typeCode)
  }

  /** Options name the set; the spelling of the default set is not normalized here. */
  predicate HasOptionSet(c: ResourceCatalog, optionSet: string) {
    exists o :: o in c.options && Canonical(o.optionSet) == Canonical(optionSet)
  }

  predicate HasUnitCode(c: ResourceCatalog, code: string) {
    exists u :: u in c.units && Canonical(u.code) == Canonical(code)
  }

  // ----- what each check demands -----

  predicate ClassNamed(k: ResourceClass) {
    !Blank(k.name) && !Blank(k.plural) && !Blank(k.slug)
  }

  /** Non-empty keys do not repeat. */
  predicate KeysUnique(keys: seq<string>) {
    forall i, j :: 0 <= i < j < |keys| && keys[i] != "" ==> keys[i] != keys[j]
  }

  function ClassCodes(classes: seq<ResourceClass>): (r: seq<string>)
    ensures |r| == |classes| && forall i :: 0 <= i < |r| ==> r[i] == Canonical(classes[i].code)
  { seq(|classes|, i requires 0 <= i < |classes| => Canonical(classes[i].code)) }

  function ClassSlugs(classes: seq<ResourceClass>): (r: seq<string>)
    ensures |r| == |classes| && forall i :: 0 <= i < |r| ==> r[i] == Canonical(classes[i].slug)
  { seq(|classes|, i requires 0 <= i < |classes| => Canonical(classes[i].slug)) }

  predicate ClassesValid(c: ResourceCatalog) {
    && (forall k :: k in c.classes ==> ClassNamed(k))
    && KeysUnique(ClassCodes(c.classes)) && KeysUnique(ClassSlugs(c.classes))
  }

  function FamilyKey(classCode: string, familyCode: string): (key: string)
    ensures key != ""
  {
    Canonical(classCode) + "|" + Canonical(familyCode)
  }

  function FamilyKeys(families: seq<ResourceFamily>): (r: seq<string>)
    ensures |r| == |families| && forall i :: 0 <= i < |r| ==> r[i] == FamilyKey(families[i].classCode, families[i].code)
  { seq(|families|, i requires 0 <= i < |families| => FamilyKey(families[i].classCode, families[i].code)) }

  predicate FamiliesKnown(c: ResourceCatalog) {
    forall f :: f in c.families ==> HasClassCode(c, f.classCode)
  }

  /** Among the families of known classes no key repeats. */
  predicate FamiliesUnique(c: ResourceCatalog) {
    forall i, j :: 0 <= i < j < |c.families| && HasClassCode(c, c.families[i].classCode) && HasClassCode(c, c.families[j].classCode) ==>
      FamilyKeys(c.families)[i] != FamilyKeys(c.families)[j]
  }

  predicate FamiliesValid(c: ResourceCatalog) { FamiliesKnown(c) && FamiliesUnique(c) }

  predicate TypesValid(c: ResourceCatalog) {
    forall t :: t in c.types ==> HasFamilyIn(c, t.classCode, t.familyCode)
  }

  predicate AttributeValid(c: ResourceCatalog, a: ResourceAttribute) {
    && HasFamilyIn(c, a.classCode, a.familyCode)
    && (a.typeCode != "" ==> HasTypeIn(c, a.classCode, a.familyCode, a.typeCode))
    && (a.optionSet != "" ==> HasOptionSet(c, a.optionSet))
  }

  predicate RulesValid(a: ResourceAttribute) {
    a.mode == Conditional <==> a.rules != []
  }

  predicate UnitFilled(u: UnitDefinition) {
    !Blank(u.code) && !Blank(u.name) && !Blank(u.symbol) && !Blank(u.dimension)
  }

  function UnitCodes(units: seq<UnitDefinition>): (r: seq<string>)
    ensures |r| == |units| && forall i :: 0 <= i < |r| ==> r[i] == Canonical(units[i].code)
  { seq(|units|, i requires 0 <= i < |units| => Canonical(units[i].code)) }

  function UnitSymbols(units: seq<UnitDefinition>): (r: seq<string>)
    ensures |r| == |units| && forall i :: 0 <= i < |r| ==> r[i] == Canonical(units[i].symbol)
  { seq(|units|, i requires 0 <= i < |units| => Canonical(units[i].symbol)) }

  predicate UnitsValid(c: ResourceCatalog) {
    (forall u :: u in c.units ==> UnitFilled(u)) && KeysUnique(UnitCodes(c.units)) && KeysUnique(UnitSymbols(c.units))
  }

  /** The last row of a code decides, as in a map filled in order; an absent code is inactive. */
  predicate ClassActive(classes: seq<ResourceClass>, code: string) {
    if classes == [] then false
    else
      var k := classes[|classes| - 1];
      if Canonical(k.code) == code then k.active else ClassActive(classes[..|classes| - 1], code)
  }

  predicate FamilyActive(families: seq<ResourceFamily>, key: string) {
    if families == [] then false
    else
      var f := families[|families| - 1];
      if FamilyKey(f.classCode, f.code) == key then f.active else FamilyActive(families[..|families| - 1], key)
  }

  predicate HierarchyValid(c: ResourceCatalog) {
    && (forall f :: f in c.families && f.active ==> ClassActive(c.classes, Canonical(f.classCode)))
    && (forall t :: t in c.types && t.active ==> FamilyActive(c.families, FamilyKey(t.classCode, t.familyCode)))
  }

  predicate AttributesKnown(c: ResourceCatalog) { forall a :: a in c.attributes ==> AttributeValid(c, a) }

  predicate ModesMatchRules(c: ResourceCatalog) { forall a :: a in c.attributes ==> RulesValid(a) }

  predicate PoliciesKnown(c: ResourceCatalog) { forall p :: p in c.unitPolicies ==> HasUnitCode(c, p.unitCode) }

  /** Every code that is referred to exists. */
  predicate ReferencesResolve(c: ResourceCatalog) {
    FamiliesKnown(c) && TypesValid(c) && AttributesKnown(c) && PoliciesKnown(c)
  }

  /** Everything else that is demanded of a catalog. */
  predicate RulesKept(c: ResourceCatalog) {
    ClassesValid(c) && FamiliesUnique(c) && ModesMatchRules(c) && UnitsValid(c) && HierarchyValid(c)
  }

  predicate Valid(c: ResourceCatalog) { ReferencesResolve(c) && RulesKept(c) }

  /** The error that joins all defects found. */
  function DefectsOf(c: ResourceCatalog): Error { Defects(!ReferencesResolve(c), !RulesKept(c)) }

  // ----- the checks as they run: every defect is collected -----

  /** A set filled in order reports exactly the repetitions of non-empty keys. */
  lemma KeysStep(keys: seq<string>, i: nat)
    requires i < |keys|
    ensures KeysUnique(keys[..i + 1]) <==> KeysUnique(keys[..i]) && (keys[i] != "" ==> keys[i] !in keys[..i])
  {
    var now := keys[..i + 1];
    assert now == keys[..i] + [keys[i]];
    if KeysUnique(keys[..i]) && (keys[i] != "" ==> keys[i] !in keys[..i]) {
      forall a, b | 0 <= a < b < |now| && now[a] != "" ensures now[a] != now[b] {
        assert now[a] == keys[..i][a];
        if b < i { assert now[b] == keys[..i][b]; }
      }
    }
    if KeysUnique(now) {
      assert forall a :: 0 <= a < i ==> now[a] == keys[..i][a];
    }
  }

  /** The list holds a reference error unless references resolve, a validation error unless rules are
      kept, and nothing else. */
  predicate Reports(errs: seq<Error>, resolve: bool, kept: bool) {
    && (Error.Reference in errs <==> !resolve) && (Error.Validation in errs <==> !kept)
    && forall e :: e in errs ==> e == Error.Reference || e == Error.Validation
  }

  lemma ReportsGrow(errs: seq<Error>, resolve: bool, kept: bool)
    requires Reports(errs, resolve, kept)
    ensures Reports(errs + [Error.Reference], false, kept) && Reports(errs + [Error.Validation], resolve, false)
  {}

  lemma ReportsJoin(a: seq<Error>, ra: bool, ka: bool, b: seq<Error>, rb: bool, kb: bool)
    requires Reports(a, ra, ka) && Reports(b, rb, kb)
    ensures Reports(a + b, ra && rb, ka && kb)
  {}

  lemma ReportsNothing(errs: seq<Error>, resolve: bool, kept: bool)
    requires Reports(errs, resolve, kept)
    ensures errs == [] <==> resolve && kept
  {
    if errs != [] { assert errs[0] in errs; }
  }

  method CheckUnique(keys: seq<string>) returns (errs: seq<Error>)
    ensures Reports(errs, true, KeysUnique(keys))
  {
    errs := [];
    var seen: set<string> := {};
    for i := 0 to |keys|
      invariant forall k :: k in seen <==> k in keys[..i]
      invariant Reports(errs, true, KeysUnique(keys[..i]))
    {
      KeysStep(keys, i);
      assert keys[..i + 1] == keys[..i] + [keys[i]];
      if keys[i] != "" && keys[i] in seen { errs := errs + [Error.Validation]; }
      seen := seen + {keys[i]};
    }
    assert keys[..|keys|] == keys;
  }

  method ValidateClasses(c: ResourceCatalog) returns (errs: seq<Error>)
    ensures Reports(errs, true, ClassesValid(c))
  {
    hide Blank, Canonical, KeysUnique;
    errs := [];
    for i := 0 to |c.classes|
      invariant Reports(errs, true, forall j :: 0 <= j < i ==> ClassNamed(c.classes[j]))
    {
      if Blank(c.classes[i].name) { errs := errs + [Error.Validation]; }
      if Blank(c.classes[i].plural) { errs := errs + [Error.Validation]; }
      if Blank(c.classes[i].slug) { errs := errs + [Error.Validation]; }
    }
    var codes := CheckUnique(ClassCodes(c.classes));
    var slugs := CheckUnique(ClassSlugs(c.classes));
    errs := errs + codes + slugs;
  }

  /** Some earlier family of a known class has this key. */
  predicate KeySeen(c: ResourceCatalog, i: nat, key: string)
    requires i <= |c.families|
  {
    exists j :: 0 <= j < i && HasClassCode(c, c.families[j].classCode) && FamilyKeys(c.families)[j] == key
  }

  predicate UniqueSoFar(c: ResourceCatalog, i: nat)
    requires i <= |c.families|
  {
    forall j :: 0 <= j < i && HasClassCode(c, c.families[j].classCode) ==> !KeySeen(c, j, FamilyKeys(c.families)[j])
  }

  predicate KnownSoFar(c: ResourceCatalog, i: nat)
    requires i <= |c.families|
  {
    forall j :: 0 <= j < i ==> HasClassCode(c, c.families[j].classCode)
  }

  lemma FamilyStep(c: ResourceCatalog, i: nat)
    requires i < |c.families|
    ensures var key, known := FamilyKey(c.families[i].classCode, c.families[i].code), HasClassCode(c, c.families[i].classCode);
      && (KnownSoFar(c, i + 1) <==> KnownSoFar(c, i) && known)
      && (UniqueSoFar(c, i + 1) <==> UniqueSoFar(c, i) && (known ==> !KeySeen(c, i, key)))
      && forall k :: KeySeen(c, i + 1, k) <==> KeySeen(c, i, k) || (known && k == key)
  {
    hide HasClassCode, FamilyKey;
    var key := FamilyKey(c.families[i].classCode, c.families[i].code);
    assert FamilyKeys(c.families)[i] == key;
    forall k ensures KeySeen(c, i + 1, k) <==> KeySeen(c, i, k) || (HasClassCode(c, c.families[i].classCode) && k == key) {
      if KeySeen(c, i, k) {
        var j :| 0 <= j < i && HasClassCode(c, c.families[j].classCode) && FamilyKeys(c.families)[j] == k;
      }
    }
  }

  lemma NoFamilies(c: ResourceCatalog)
    ensures Reports([], true, true) && UniqueSoFar(c, 0) && KnownSoFar(c, 0) && forall k :: !KeySeen(c, 0, k)
  {}

  lemma AllFamilies(c: ResourceCatalog)
    ensures KnownSoFar(c, |c.families|) <==> FamiliesKnown(c)
    ensures UniqueSoFar(c, |c.families|) <==> FamiliesUnique(c)
  {
    hide HasClassCode, FamilyKey;
    assert forall j :: 0 <= j < |c.families| ==> c.families[j] in c.families;
  }

  method ValidateFamilies(c: ResourceCatalog) returns (errs: seq<Error>)
    ensures Reports(errs, FamiliesKnown(c), FamiliesUnique(c))
  {
    hide HasClassCode, FamilyKey, KeySeen, UniqueSoFar, KnownSoFar, Reports, FamiliesKnown, FamiliesUnique, FamilyKeys;
    errs := [];
    var seen: set<string> := {};
    NoFamilies(c);
    for i := 0 to |c.families|
      invariant Reports(errs, KnownSoFar(c, i), UniqueSoFar(c, i))
      invariant forall k :: k in seen <==> KeySeen(c, i, k)
    {
      var f := c.families[i];
      FamilyStep(c, i);
      ReportsGrow(errs, KnownSoFar(c, i), UniqueSoFar(c, i));
      if !HasClassCode(c, f.classCode) {
        errs := errs + [Error.Reference];
      } else {
        var key := FamilyKey(f.classCode, f.code);
        if key in seen { errs := errs + [Error.Validation]; }
        seen := seen + {key};
      }
    }
    AllFamilies(c);
  }

  method ValidateTypes(c: ResourceCatalog) returns (errs: seq<Error>)
    ensures Reports(errs, TypesValid(c), true)
  {
    hide HasFamilyIn;
    errs := [];
    for i := 0 to |c.types|
      invariant Reports(errs, forall j :: 0 <= j < i ==> HasFamilyIn(c, c.types[j].classCode, c.types[j].familyCode), true)
    {
      if !HasFamilyIn(c, c.types[i].classCode, c.types[i].familyCode) { errs := errs + [Error.Reference]; }
    }
  }

  method ValidateAttributes(c: ResourceCatalog) returns (errs: seq<Error>)
    ensures Reports(errs, AttributesKnown(c), true)
  {
    hide HasFamilyIn, HasTypeIn, HasOptionSet;
    errs := [];
    for i := 0 to |c.attributes|
      invariant Reports(errs, forall j :: 0 <= j < i ==> AttributeValid(c, c.attributes[j]), true)
    {
      var a := c.attributes[i];
      if !HasFamilyIn(c, a.classCode, a.familyCode) {
        errs := errs + [Error.Reference];
      } else if a.typeCode != "" && !HasTypeIn(c, a.classCode, a.familyCode, a.typeCode) {
        errs := errs + [Error.Reference];
      }
      if a.optionSet != "" && !HasOptionSet(c, a.optionSet) { errs := errs + [Error.Reference]; }
    }
  }

  method ValidateAttributeRules(c: ResourceCatalog) returns (errs: seq<Error>)
    ensures Reports(errs, true, ModesMatchRules(c))
  {
    errs := [];
    assert Reports([], true, true);
    hide Reports;
    for i := 0 to |c.attributes|
      invariant Reports(errs, true, forall j :: 0 <= j < i ==> RulesValid(c.attributes[j]))
    {
      var a := c.attributes[i];
      ReportsGrow(errs, true, forall j :: 0 <= j < i ==> RulesValid(c.attributes[j]));
      assert RulesValid(a) <==> !(a.mode == Conditional && a.rules == []) && !(a.mode != Conditional && a.rules != []);
      if a.mode == Conditional && a.rules == [] {
        errs := errs + [Error.Validation];
      } else if a.mode != Conditional && a.rules != [] {
        errs := errs + [Error.Validation];
      }
    }
  }

  method ValidateUnits(c: ResourceCatalog) returns (errs: seq<Error>)
    ensures Reports(errs, true, UnitsValid(c))
  {
    hide Blank, Canonical, KeysUnique;
    errs := [];
    for i := 0 to |c.units|
      invariant Reports(errs, true, forall j :: 0 <= j < i ==> UnitFilled(c.units[j]))
    {
      if !UnitFilled(c.units[i]) { errs := errs + [Error.Validation]; }
    }
    var codes := CheckUnique(UnitCodes(c.units));
    var symbols := CheckUnique(UnitSymbols(c.units));
    errs := errs + codes + symbols;
  }

  method ValidateUnitPolicies(c: ResourceCatalog) returns (errs: seq<Error>)
    ensures Reports(errs, PoliciesKnown(c), true)
  {
    hide HasUnitCode;
    errs := [];
    for i := 0 to |c.unitPolicies|
      invariant Reports(errs, forall j :: 0 <= j < i ==> HasUnitCode(c, c.unitPolicies[j].unitCode), true)
    {
      if !HasUnitCode(c, c.unitPolicies[i].unitCode) { errs := errs + [Error.Reference]; }
    }
  }

  /** Active families under their classes. */
  predicate FamiliesHang(c: ResourceCatalog, i: nat)
    requires i <= |c.families|
  {
    forall j :: 0 <= j < i && c.families[j].active ==> ClassActive(c.classes, Canonical(c.families[j].classCode))
  }

  predicate TypesHang(c: ResourceCatalog, i: nat)
    requires i <= |c.types|
  {
    forall j :: 0 <= j < i && c.types[j].active ==> FamilyActive(c.families, FamilyKey(c.types[j].classCode, c.types[j].familyCode))
  }

  method ClassActivity(classes: seq<ResourceClass>) returns (active: map<string, bool>)
    ensures forall code :: ClassActive(classes, code) == (code in active && active[code])
  {
    hide Canonical;
    active := map[];
    for i := 0 to |classes|
      invariant forall code :: ClassActive(classes[..i], code) == (code in active && active[code])
    {
      assert classes[..i + 1][..i] == classes[..i];
      active := active[Canonical(classes[i].code) := classes[i].active];
    }
    assert classes[..|classes|] == classes;
  }

  method FamilyActivity(families: seq<ResourceFamily>) returns (active: map<string, bool>)
    ensures forall key :: FamilyActive(families, key) == (key in active && active[key])
  {
    hide FamilyKey;
    active := map[];
    for i := 0 to |families|
      invariant forall key :: FamilyActive(families[..i], key) == (key in active && active[key])
    {
      assert families[..i + 1][..i] == families[..i];
      active := active[FamilyKey(families[i].classCode, families[i].code) := families[i].active];
    }
    assert families[..|families|] == families;
  }

  method ValidateActiveHierarchy(c: ResourceCatalog) returns (errs: seq<Error>)
    ensures Reports(errs, true, HierarchyValid(c))
  {
    hide Canonical, FamilyKey, ClassActive, FamilyActive;
    var classActive := ClassActivity(c.classes);
    var familyActive := FamilyActivity(c.families);
    errs := [];
    for i := 0 to |c.families|
      invariant Reports(errs, true, FamiliesHang(c, i))
    {
      var parent := Canonical(c.families[i].classCode);
      if c.families[i].active && !(parent in classActive && classActive[parent]) { errs := errs + [Error.Validation]; }
    }
    for i := 0 to |c.types|
      invariant Reports(errs, true, FamiliesHang(c, |c.families|) && TypesHang(c, i))
    {
      var key := FamilyKey(c.types[i].classCode, c.types[i].familyCode);
      if c.types[i].active && !(key in familyActive && familyActive[key]) { errs := errs + [Error.Validation]; }
    }
  }

  /** Validate reports exactly which kinds of defect the catalog has, and none for valid catalogs. */
  method Validate(c: ResourceCatalog) returns (errs: seq<Error>)
    ensures Reports(errs, ReferencesResolve(c), RulesKept(c))
    ensures errs == [] <==> Valid(c)
  {
    hide ClassesValid, FamiliesKnown, FamiliesUnique, TypesValid, AttributesKnown, ModesMatchRules, UnitsValid, PoliciesKnown, HierarchyValid, Reports;
    var classes := ValidateClasses(c);
    var families := ValidateFamilies(c);
    var types := ValidateTypes(c);
    var attributes := ValidateAttributes(c);
    var rules := ValidateAttributeRules(c);
    var units := ValidateUnits(c);
    var policies := ValidateUnitPolicies(c);
    var hierarchy := ValidateActiveHierarchy(c);
    ReportsJoin(classes, true, ClassesValid(c), families, FamiliesKnown(c), FamiliesUnique(c));
    ReportsJoin(types, TypesValid(c), true, attributes, AttributesKnown(c), true);
    ReportsJoin(rules, true, ModesMatchRules(c), units, true, UnitsValid(c));
    ReportsJoin(policies, PoliciesKnown(c), true, hierarchy, true, HierarchyValid(c));
    ReportsJoin(classes + families, FamiliesKnown(c), ClassesValid(c) && FamiliesUnique(c), types + attributes, TypesValid(c) && AttributesKnown(c), true);
    ReportsJoin(rules + units, true, ModesMatchRules(c) && UnitsValid(c), policies + hierarchy, PoliciesKnown(c), HierarchyValid(c));
    errs := (classes + families + (types + attributes)) + (rules + units + (policies + hierarchy));
    ReportsJoin(classes + families + (types + attributes), FamiliesKnown(c) && TypesValid(c) && AttributesKnown(c), ClassesValid(c) && FamiliesUnique(c),
      rules + units + (policies + hierarchy), PoliciesKnown(c), ModesMatchRules(c) && UnitsValid(c) && HierarchyValid(c));
    ReportsNothing(errs, ReferencesResolve(c), RulesKept(c));
  }

  // ----- the hierarchy of a valid catalog -----

  /** Row i is the only one of its code, and active. */
  predicate SoleActiveClass(classes: seq<ResourceClass>, code: string, i: int) {
    && 0 <= i < |classes| && Canonical(classes[i].code) == code && classes[i].active
    && forall j :: 0 <= j < |classes| && Canonical(classes[j].code) == code ==> j == i
  }

  predicate SoleActiveFamily(families: seq<ResourceFamily>, classCode: string, familyCode: string, i: int) {
    && 0 <= i < |families| && FamilyIs(families[i], classCode, familyCode) && families[i].active
    && forall j :: 0 <= j < |families| && FamilyIs(families[j], classCode, familyCode) ==> j == i
  }

  lemma {:induction false} LastClass(classes: seq<ResourceClass>, code: string) returns (i: int)
    requires ClassActive(classes, code)
    ensures 0 <= i < |classes| && Canonical(classes[i].code) == code && classes[i].active
  {
    hide Canonical;
    var n := |classes| - 1;
    if Canonical(classes[n].code) == code { i := n; } else { i := LastClass(classes[..n], code); }
  }

  lemma {:induction false} LastFamily(families: seq<ResourceFamily>, key: string) returns (i: int)
    requires FamilyActive(families, key)
    ensures 0 <= i < |families| && FamilyKey(families[i].classCode, families[i].code) == key && families[i].active
  {
    hide FamilyKey;
    var n := |families| - 1;
    if FamilyKey(families[n].classCode, families[n].code) == key { i := n; } else { i := LastFamily(families[..n], key); }
  }

  lemma SoleFamily(c: ResourceCatalog, t: ResourceType) returns (i: int)
    requires KeysUnique(FamilyKeys(c.families)) && TypesValid(c) && HierarchyValid(c) && t in c.types && t.active
    ensures SoleActiveFamily(c.families, t.classCode, t.familyCode, i)
  {
    hide Canonical, HasClassCode, ClassActive, FamilyActive;
    var key := FamilyKey(t.classCode, t.familyCode);
    i := LastFamily(c.families, key);
    var f :| f in c.families && FamilyIs(f, t.classCode, t.familyCode);
    var j :| 0 <= j < |c.families| && c.families[j] == f;
    var keys := FamilyKeys(c.families);
    assert keys[i] == key && keys[j] == key;
    assert i == j;
    forall k | 0 <= k < |c.families| && FamilyIs(c.families[k], t.classCode, t.familyCode) ensures k == i {
      assert keys[k] == key;
    }
  }

  lemma SoleClass(c: ResourceCatalog, f: ResourceFamily) returns (i: int)
    requires ClassesValid(c) && HierarchyValid(c) && f in c.families && f.active && Canonical(f.classCode) != ""
    ensures SoleActiveClass(c.classes, Canonical(f.classCode), i)
  {
    hide Canonical, ClassNamed, ClassActive, FamilyActive;
    i := LastClass(c.classes, Canonical(f.classCode));
    var codes := ClassCodes(c.classes);
    forall k | 0 <= k < |c.classes| && Canonical(c.classes[k].code) == Canonical(f.classCode) ensures k == i {
      assert codes[k] == codes[i];
    }
  }

  /** Two class rows have blank codes. */
  predicate BlankTwice(classes: seq<ResourceClass>) {
    exists i, j :: 0 <= i < j < |classes| && Canonical(classes[i].code) == "" && Canonical(classes[j].code) == ""
  }

  /** In a valid catalog every active type sits in exactly one family row, which is active.  That
      family sits in exactly one class row, which is active, precisely unless its class code is blank
      and shared.  Codes may hold "|": the joined family keys cannot confuse two families of a valid
      catalog. */
  lemma ActiveTypesHaveActiveParents(c: ResourceCatalog, t: ResourceType)
    requires Valid(c) && t in c.types && t.active
    ensures exists i :: SoleActiveFamily(c.families, t.classCode, t.familyCode, i)
    ensures (exists i :: SoleActiveClass(c.classes, Canonical(t.classCode), i)) <==>
      Canonical(t.classCode) != "" || !BlankTwice(c.classes)
  {
    FamilyKeysRepeatOnlyUnknown(c);
    hide Canonical, SoleActiveClass, ClassesValid, FamiliesUnique, TypesValid, AttributesKnown, ModesMatchRules, UnitsValid, PoliciesKnown, HierarchyValid, BlankTwice;
    var i := SoleFamily(c, t);
    assert c.families[i] in c.families;
    if Canonical(t.classCode) != "" {
      var k := SoleClass(c, c.families[i]);
    } else {
      SoleBlankClass(c, c.families[i]);
    }
  }

  /** Once every family's class is known, the keys of all families are compared. */
  lemma FamilyKeysRepeatOnlyUnknown(c: ResourceCatalog)
    requires FamiliesKnown(c)
    ensures FamiliesUnique(c) <==> KeysUnique(FamilyKeys(c.families))
  {
    hide HasClassCode, FamilyKey;
    assert forall i :: 0 <= i < |c.families| ==> c.families[i] in c.families;
    assert forall i :: 0 <= i < |c.families| ==> FamilyKeys(c.families)[i] != "";
  }

  lemma SoleBlankClass(c: ResourceCatalog, f: ResourceFamily)
    requires HierarchyValid(c) && f in c.families && f.active && Canonical(f.classCode) == ""
    ensures (exists i :: SoleActiveClass(c.classes, "", i)) <==> !BlankTwice(c.classes)
  {
    hide Canonical, ClassActive, FamilyActive;
    var i := LastClass(c.classes, "");
    if !BlankTwice(c.classes) {
      assert SoleActiveClass(c.classes, "", i);
    }
  }

  /** Two classes with blank codes, the first inactive and the second active, above an active
      family and type. */
  function BlankClasses(): ResourceCatalog {
    ResourceCatalog(
      [ResourceClass("", "N", "P", "S", [], [], 1, false), ResourceClass("", "N", "P", "T", [], [], 2, true)],
      [ResourceFamily("", "F", "N", true)],
      [ResourceType("", "F", "T", "N", true)],
      [], [], [], [], [], [], [], [])
  }

  /** The canonical codes and slugs of that catalog. */
  predicate BlankClassFacts() {
    && Canonical("") == "" && Canonical("F") == "F" && Canonical("S") == "S" && Canonical("T") == "T"
    && !Blank("N") && !Blank("P") && !Blank("S") && !Blank("T")
  }

  lemma BlankClassFactsHold()
    ensures BlankClassFacts()
  {
    hide Canonical, Blank;
    CanonicalFixed("");
    CapitalLetter('F');
    CapitalLetter('S');
    CapitalLetter('T');
    CapitalLetter('N');
    CapitalLetter('P');
  }

  lemma BlankClassesPass()
    ensures ClassesValid(BlankClasses())
  {
    BlankClassFactsHold();
    hide Canonical, Blank;
    var classes := BlankClasses().classes;
    assert ClassCodes(classes) == ["", ""] && ClassSlugs(classes) == ["S", "T"];
  }

  lemma BlankFamiliesPass()
    ensures FamiliesValid(BlankClasses()) && TypesValid(BlankClasses())
  {
    hide Canonical, Blank;
    var c := BlankClasses();
    assert c.classes[0] in c.classes && HasClassCode(c, "");
    assert c.families[0] in c.families && FamilyIs(c.families[0], "", "F");
    assert HasFamilyIn(c, "", "F");
  }

  lemma BlankHierarchyPasses()
    ensures HierarchyValid(BlankClasses())
  {
    hide Canonical, Blank;
    var c := BlankClasses();
    assert ClassActive(c.classes, Canonical(""));
    assert FamilyActive(c.families, FamilyKey("", "F"));
  }

  /** Blank class codes escape: the catalog validates although its active type has two class rows,
      one of them inactive. */
  lemma BlankClassCodesEscape()
    ensures Valid(BlankClasses()) && BlankClasses().types[0].active && !BlankClasses().classes[0].active
    ensures Canonical(BlankClasses().classes[0].code) == Canonical(BlankClasses().types[0].classCode)
    ensures forall i :: !SoleActiveClass(BlankClasses().classes, Canonical(BlankClasses().types[0].classCode), i)
  {
    BlankClassesPass();
    BlankFamiliesPass();
    BlankHierarchyPasses();
    hide Canonical, ClassesValid, FamiliesValid, TypesValid, HierarchyValid;
  }
}

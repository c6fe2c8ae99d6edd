/** Catalog equivalence: equality up to the spelling of the default option set.  It is an
    equivalence relation, and neither the writer nor the evaluator can tell equivalent catalogs
    apart. */
module Equivalence {
  import opened Text
  import opened Sorting
  import opened Catalog
  import opened Resource
  import opened ResourceBuild
  import opened Evaluator

  function NormalizedOptionSet(code: string): string {
    if code == "" then DEFAULT_OPTION_SET else code
  }

  // ----- the element relations, field by field -----

  predicate EquivalentSlices<T>(a: seq<T>, b: seq<T>, equal: (T, T) -> bool) {
    |a| == |b| && forall i :: 0 <= i < |a| ==> equal(a[i], b[i])
  }

  predicate EquivalentClass(a: ResourceClass, b: ResourceClass) {
    a.code == b.code && a.name == b.name && a.plural == b.plural && a.slug == b.slug &&
    a.order == b.order && a.active == b.active && a.aliases == b.aliases && a.keywords == b.keywords
  }

  predicate EquivalentFamily(a: ResourceFamily, b: ResourceFamily) {
    a.classCode == b.classCode && a.code == b.code && a.name == b.name && a.active == b.active
  }

  predicate EquivalentType(a: ResourceType, b: ResourceType) {
    a.classCode == b.classCode && a.familyCode == b.familyCode && a.code == b.code && a.name == b.name && a.active == b.active
  }

  predicate EquivalentDefinition(a: AttributeDefinition, b: AttributeDefinition) {
    a.code == b.code && a.name == b.name && a.valueType == b.valueType && a.dimension == b.dimension &&
    a.defaultIdentityParticipates == b.defaultIdentityParticipates && a.active == b.active
  }

  predicate EquivalentOptionSet(a: ResourceOptionSet, b: ResourceOptionSet) {
    NormalizedOptionSet(a.code) == NormalizedOptionSet(b.code) && a.name == b.name && a.active == b.active
  }

  predicate EquivalentOption(a: AttributeOption, b: AttributeOption) {
    NormalizedOptionSet(a.optionSet) == NormalizedOptionSet(b.optionSet) &&
    a.attributeCode == b.attributeCode && a.code == b.code && a.displayLabel == b.displayLabel && a.active == b.active
  }

  predicate EquivalentRelation(a: AttributeOptionRelation, b: AttributeOptionRelation) {
    NormalizedOptionSet(a.optionSet) == NormalizedOptionSet(b.optionSet) &&
    a.fromAttribute == b.fromAttribute && a.fromOption == b.fromOption &&
    a.toAttribute == b.toAttribute && a.toOption == b.toOption && a.active == b.active
  }

  predicate EquivalentUnit(a: UnitDefinition, b: UnitDefinition) {
    a.code == b.code && a.name == b.name && a.symbol == b.symbol && a.dimension == b.dimension && a.active == b.active
  }

  predicate EquivalentUnitPolicy(a: ResourceUnitPolicy, b: ResourceUnitPolicy) {
    a.classCode == b.classCode && a.familyCode == b.familyCode && a.unitCode == b.unitCode &&
    a.allowed == b.allowed && a.suggested == b.suggested && a.active == b.active
  }

  predicate EquivalentRule(a: AttributeRule, b: AttributeRule) {
    a.whenAttribute == b.whenAttribute && a.whenEquals == b.whenEquals && a.mode == b.mode &&
    a.identityParticipates == b.identityParticipates && a.notApplicable == b.notApplicable && a.active == b.active
  }

  predicate EquivalentAttribute(a: ResourceAttribute, b: ResourceAttribute) {
    a.classCode == b.classCode && a.familyCode == b.familyCode && a.typeCode == b.typeCode &&
    NormalizedOptionSet(a.optionSet) == NormalizedOptionSet(b.optionSet) &&
    EquivalentDefinition(a.definition, b.definition) && a.mode == b.mode &&
    a.identityParticipates == b.identityParticipates && a.active == b.active &&
    EquivalentSlices(a.rules, b.rules, EquivalentRule)
  }

  predicate EquivalentPresentationField(a: PresentationField, b: PresentationField) {
    a.classCode == b.classCode && a.familyCode == b.familyCode && a.typeCode == b.typeCode &&
    a.attributeCode == b.attributeCode && a.position == b.position && a.active == b.active
  }

  predicate EquivalentResourceCatalogs(a: ResourceCatalog, b: ResourceCatalog) {
    EquivalentSlices(a.classes, b.classes, EquivalentClass) &&
    EquivalentSlices(a.families, b.families, EquivalentFamily) &&
    EquivalentSlices(a.types, b.types, EquivalentType) &&
    EquivalentSlices(a.presentationFields, b.presentationFields, EquivalentPresentationField) &&
    EquivalentSlices(a.units, b.units, EquivalentUnit) &&
    EquivalentSlices(a.unitPolicies, b.unitPolicies, EquivalentUnitPolicy) &&
    EquivalentSlices(a.definitions, b.definitions, EquivalentDefinition) &&
    EquivalentSlices(a.attributes, b.attributes, EquivalentAttribute) &&
    EquivalentSlices(a.options, b.options, EquivalentOption) &&
    EquivalentSlices(a.relations, b.relations, EquivalentRelation) &&
    EquivalentSlices(a.optionSets, b.optionSets, EquivalentOptionSet)
  }

  // ----- normal forms -----

  function NormalAttribute(a: ResourceAttribute): ResourceAttribute { a.(optionSet := NormalizedOptionSet(a.optionSet)) }
  function NormalOption(o: AttributeOption): AttributeOption { o.(optionSet := NormalizedOptionSet(o.optionSet)) }
  function NormalRelation(r: AttributeOptionRelation): AttributeOptionRelation { r.(optionSet := NormalizedOptionSet(r.optionSet)) }
  function NormalSet(t: ResourceOptionSet): ResourceOptionSet { t.(code := NormalizedOptionSet(t.code)) }

  function Normal(c: ResourceCatalog): ResourceCatalog {
    c.(attributes := Map(NormalAttribute, c.attributes), options := Map(NormalOption, c.options),
       relations := Map(NormalRelation, c.relations), optionSets := Map(NormalSet, c.optionSets))
  }

  lemma AttributeNormalForm(a: ResourceAttribute, b: ResourceAttribute)
    ensures EquivalentAttribute(a, b) <==> NormalAttribute(a) == NormalAttribute(b)
  {
    if EquivalentAttribute(a, b) {
      assert a.rules == b.rules;
    }
  }

  lemma SlicesByEquality<T>(a: seq<T>, b: seq<T>, equal: (T, T) -> bool)
    requires forall i :: 0 <= i < |a| && i < |b| ==> (equal(a[i], b[i]) <==> a[i] == b[i])
    ensures EquivalentSlices(a, b, equal) <==> a == b
  {
  }

  lemma SlicesByNormalForm<T>(a: seq<T>, b: seq<T>, equal: (T, T) -> bool, normal: T -> T)
    requires forall i :: 0 <= i < |a| && i < |b| ==> (equal(a[i], b[i]) <==> normal(a[i]) == normal(b[i]))
    ensures EquivalentSlices(a, b, equal) <==> Map(normal, a) == Map(normal, b)
  {
    if Map(normal, a) == Map(normal, b) {
      assert |a| == |b|;
      forall i | 0 <= i < |a| ensures equal(a[i], b[i]) {
        assert Map(normal, a)[i] == Map(normal, b)[i];
      }
    }
  }

  /** Equivalence is equality of normal forms. */
  lemma EquivalentIffSameNormalForm(a: ResourceCatalog, b: ResourceCatalog)
    ensures EquivalentResourceCatalogs(a, b) <==> Normal(a) == Normal(b)
  {
    PlainSlices(a, b);
    NormalizedSlices(a, b);
    hide EquivalentSlices, EquivalentAttribute, NormalAttribute, NormalOption, NormalRelation, NormalSet, Map;
  }

  lemma PlainSlices(a: ResourceCatalog, b: ResourceCatalog)
    ensures EquivalentSlices(a.classes, b.classes, EquivalentClass) <==> a.classes == b.classes
    ensures EquivalentSlices(a.families, b.families, EquivalentFamily) <==> a.families == b.families
    ensures EquivalentSlices(a.types, b.types, EquivalentType) <==> a.types == b.types
    ensures EquivalentSlices(a.presentationFields, b.presentationFields, EquivalentPresentationField) <==> a.presentationFields == b.presentationFields
    ensures EquivalentSlices(a.units, b.units, EquivalentUnit) <==> a.units == b.units
    ensures EquivalentSlices(a.unitPolicies, b.unitPolicies, EquivalentUnitPolicy) <==> a.unitPolicies == b.unitPolicies
    ensures EquivalentSlices(a.definitions, b.definitions, EquivalentDefinition) <==> a.definitions == b.definitions
  {
    hide EquivalentSlices;
    SlicesByEquality(a.classes, b.classes, EquivalentClass);
    SlicesByEquality(a.families, b.families, EquivalentFamily);
    SlicesByEquality(a.types, b.types, EquivalentType);
    SlicesByEquality(a.presentationFields, b.presentationFields, EquivalentPresentationField);
    SlicesByEquality(a.units, b.units, EquivalentUnit);
    SlicesByEquality(a.unitPolicies, b.unitPolicies, EquivalentUnitPolicy);
    SlicesByEquality(a.definitions, b.definitions, EquivalentDefinition);
  }

  lemma NormalizedSlices(a: ResourceCatalog, b: ResourceCatalog)
    ensures EquivalentSlices(a.attributes, b.attributes, EquivalentAttribute) <==> Map(NormalAttribute, a.attributes) == Map(NormalAttribute, b.attributes)
    ensures EquivalentSlices(a.options, b.options, EquivalentOption) <==> Map(NormalOption, a.options) == Map(NormalOption, b.options)
    ensures EquivalentSlices(a.relations, b.relations, EquivalentRelation) <==> Map(NormalRelation, a.relations) == Map(NormalRelation, b.relations)
    ensures EquivalentSlices(a.optionSets, b.optionSets, EquivalentOptionSet) <==> Map(NormalSet, a.optionSets) == Map(NormalSet, b.optionSets)
  {
    hide EquivalentSlices, Map, NormalizedOptionSet;
    forall i | 0 <= i < |a.attributes| && i < |b.attributes|
      ensures EquivalentAttribute(a.attributes[i], b.attributes[i]) <==> NormalAttribute(a.attributes[i]) == NormalAttribute(b.attributes[i])
    {
      AttributeNormalForm(a.attributes[i], b.attributes[i]);
    }
    SlicesByNormalForm(a.attributes, b.attributes, EquivalentAttribute, NormalAttribute);
    SlicesByNormalForm(a.options, b.options, EquivalentOption, NormalOption);
    SlicesByNormalForm(a.relations, b.relations, EquivalentRelation, NormalRelation);
    SlicesByNormalForm(a.optionSets, b.optionSets, EquivalentOptionSet, NormalSet);
  }

  lemma EquivalenceRelation(a: ResourceCatalog, b: ResourceCatalog, c: ResourceCatalog)
    ensures EquivalentResourceCatalogs(a, a)
    ensures EquivalentResourceCatalogs(a, b) ==> EquivalentResourceCatalogs(b, a)
    ensures EquivalentResourceCatalogs(a, b) && EquivalentResourceCatalogs(b, c) ==> EquivalentResourceCatalogs(a, c)
  {
    hide EquivalentResourceCatalogs, Normal;
    EquivalentIffSameNormalForm(a, a);
    EquivalentIffSameNormalForm(a, b);
    EquivalentIffSameNormalForm(b, a);
    EquivalentIffSameNormalForm(b, c);
    EquivalentIffSameNormalForm(a, c);
  }

  // ----- nothing the writer reads depends on the spelling -----

  lemma SpellingIsCanonical(set_: string)
    ensures CanonicalOptionSet(NormalizedOptionSet(set_)) == CanonicalOptionSet(set_)
  {
    hide Canonical;
    if set_ == "" {
      CanonicalFixed(DEFAULT_OPTION_SET);
      CanonicalFixed("");
    }
  }

  /** The same bindings, up to spelling. */
  ghost predicate NormalBindings(n: map<string, ResourceAttribute>, b: map<string, ResourceAttribute>) {
    n.Keys == b.Keys && forall code :: code in b ==> n[code] == NormalAttribute(b[code])
  }

  lemma {:induction false} BindingsNormalize(attributes: seq<ResourceAttribute>, s: ResourceScope)
    ensures NormalBindings(Bindings(Map(NormalAttribute, attributes), s), Bindings(attributes, s))
  {
    hide ScopeMatches, CanonicalAttribute, NormalizedOptionSet;
    if attributes != [] {
      var n := |attributes| - 1;
      BindingsNormalize(attributes[..n], s);
      assert Map(NormalAttribute, attributes)[..n] == Map(NormalAttribute, attributes[..n]);
    }
  }

  lemma SetKeyNormalizes(a: ResourceAttribute)
    ensures SetKey(NormalAttribute(a)) == SetKey(a) && BindingCode(NormalAttribute(a)) == BindingCode(a)
  {
    SpellingIsCanonical(a.optionSet);
  }

  lemma OptionNormalizes(o: AttributeOption, code: string, set_: string, raw: string)
    ensures IsOptionOf(NormalOption(o), code, set_, raw) <==> IsOptionOf(o, code, set_, raw)
  {
    SpellingIsCanonical(o.optionSet);
  }

  lemma HasOptionNormalizes(options: seq<AttributeOption>, code: string, set_: string, raw: string)
    ensures HasOption(Map(NormalOption, options), code, set_, raw) <==> HasOption(options, code, set_, raw)
  {
    hide IsOptionOf, NormalOption;
    var mapped := Map(NormalOption, options);
    forall i | 0 <= i < |options| ensures IsOptionOf(mapped[i], code, set_, raw) <==> IsOptionOf(options[i], code, set_, raw) {
      OptionNormalizes(options[i], code, set_, raw);
    }
    if HasOption(options, code, set_, raw) {
      var o :| o in options && IsOptionOf(o, code, set_, raw);
      var i :| 0 <= i < |options| && options[i] == o;
      assert mapped[i] in mapped;
    }
    if HasOption(mapped, code, set_, raw) {
      var o :| o in mapped && IsOptionOf(o, code, set_, raw);
      var i :| 0 <= i < |mapped| && mapped[i] == o;
      assert options[i] in options;
    }
  }

  lemma CanonicalValueNormalizes(c: ResourceCatalog, a: ResourceAttribute, v: AttributeValue)
    ensures CanonicalValue(Normal(c), NormalAttribute(a), v) == CanonicalValue(c, a, v)
  {
    hide HasOption, BindingCode, SetKey, NormalizedOptionSet, ValueCode, Canonical, Blank, Squeeze;
    SetKeyNormalizes(a);
    HasOptionNormalizes(c.options, BindingCode(a), SetKey(a), v.optionCode);
  }

  lemma ValuesFitNormalizes(c: ResourceCatalog, n: map<string, ResourceAttribute>, b: map<string, ResourceAttribute>, values: seq<AttributeValue>)
    requires NormalBindings(n, b)
    ensures ValuesFit(Normal(c), n, values) <==> ValuesFit(c, b, values)
  {
    hide CanonicalValue, ValueCode, NormalAttribute, Normal;
    forall v | v in values && ValueCode(v) in b
      ensures CanonicalValue(Normal(c), n[ValueCode(v)], v) == CanonicalValue(c, b[ValueCode(v)], v)
    {
      CanonicalValueNormalizes(c, b[ValueCode(v)], v);
    }
  }

  lemma {:induction false} ByCodeNormalizes(c: ResourceCatalog, n: map<string, ResourceAttribute>, b: map<string, ResourceAttribute>, values: seq<AttributeValue>)
    requires NormalBindings(n, b) && ValuesFit(c, b, values) && ValuesFit(Normal(c), n, values)
    ensures ByCode(Normal(c), n, values) == ByCode(c, b, values)
  {
    hide CanonicalValue, ValueCode, NormalAttribute, Normal;
    if values != [] {
      var m := |values| - 1;
      ByCodeNormalizes(c, n, b, values[..m]);
      CanonicalValueNormalizes(c, b[ValueCode(values[m])], values[m]);
    }
  }

  lemma {:induction false} OptionSetActiveNormalizes(sets: seq<ResourceOptionSet>, set_: string)
    ensures OptionSetActive(Map(NormalSet, sets), set_) == OptionSetActive(sets, set_)
  {
    hide CanonicalOptionSet, NormalizedOptionSet;
    if sets != [] {
      SpellingIsCanonical(sets[0].code);
      OptionSetActiveNormalizes(sets[1..], set_);
      assert Map(NormalSet, sets)[1..] == Map(NormalSet, sets[1..]);
    }
  }

  lemma {:induction false} OptionActiveNormalizes(options: seq<AttributeOption>, code: string, set_: string, raw: string)
    ensures OptionActive(Map(NormalOption, options), code, set_, raw) == OptionActive(options, code, set_, raw)
  {
    hide IsOptionOf, NormalizedOptionSet;
    if options != [] {
      OptionNormalizes(options[0], code, set_, raw);
      OptionActiveNormalizes(options[1..], code, set_, raw);
      assert Map(NormalOption, options)[1..] == Map(NormalOption, options[1..]);
    }
  }

  lemma BindingActiveNormalizes(c: ResourceCatalog, code: string, a: ResourceAttribute, values: map<string, AttributeValue>)
    ensures BindingActive(Normal(c), code, NormalAttribute(a), values) == BindingActive(c, code, a, values)
  {
    hide SetKey, NormalizedOptionSet, OptionSetActive, OptionActive;
    SetKeyNormalizes(a);
    OptionSetActiveNormalizes(c.optionSets, SetKey(a));
    if code in values {
      OptionActiveNormalizes(c.options, code, SetKey(a), values[code].optionCode);
    }
  }

  lemma RelevantNormalizes(r: AttributeOptionRelation, n: map<string, ResourceAttribute>, b: map<string, ResourceAttribute>)
    requires NormalBindings(n, b)
    ensures Relevant(NormalRelation(r), n) <==> Relevant(r, b)
    ensures GroupKey(NormalRelation(r)) == GroupKey(r)
  {
    hide CanonicalOptionSet, CanonicalAttribute, NormalizedOptionSet, SetKey, NormalAttribute;
    SpellingIsCanonical(r.optionSet);
    var from, to := CanonicalAttribute(r.fromAttribute), CanonicalAttribute(r.toAttribute);
    if from in b { SetKeyNormalizes(b[from]); }
    if to in b { SetKeyNormalizes(b[to]); }
  }

  lemma GroupNormalizes(relations: seq<AttributeOptionRelation>, n: map<string, ResourceAttribute>, b: map<string, ResourceAttribute>,
      values: map<string, AttributeValue>, key: string)
    requires NormalBindings(n, b)
    ensures GroupCoheres(Map(NormalRelation, relations), n, values, key) <==> GroupCoheres(relations, b, values, key)
  {
    hide Relevant, GroupKey, FirstPart, SecondPart, NormalBindings, NormalizedOptionSet;
    var mapped := Map(NormalRelation, relations);
    forall i | 0 <= i < |relations|
      ensures Relevant(mapped[i], n) <==> Relevant(relations[i], b)
      ensures GroupKey(mapped[i]) == GroupKey(relations[i])
      ensures mapped[i].fromOption == relations[i].fromOption && mapped[i].toOption == relations[i].toOption
      ensures mapped[i] in mapped && relations[i] in relations
    {
      RelevantNormalizes(relations[i], n, b);
    }
    assert forall q :: q in mapped ==> exists i :: 0 <= i < |mapped| && mapped[i] == q;
    assert forall q :: q in relations ==> exists i :: 0 <= i < |relations| && relations[i] == q;
  }

  lemma RelationsNormalize(relations: seq<AttributeOptionRelation>, n: map<string, ResourceAttribute>, b: map<string, ResourceAttribute>,
      values: map<string, AttributeValue>)
    requires NormalBindings(n, b)
    ensures RelationsCohere(Map(NormalRelation, relations), n, values) <==> RelationsCohere(relations, b, values)
    ensures (forall r :: r in Map(NormalRelation, relations) && Relevant(r, n) ==> r.active) <==>
      (forall r :: r in relations && Relevant(r, b) ==> r.active)
  {
    hide Relevant, GroupKey, GroupCoheres, NormalBindings, NormalizedOptionSet;
    var mapped := Map(NormalRelation, relations);
    forall i | 0 <= i < |relations|
      ensures Relevant(mapped[i], n) <==> Relevant(relations[i], b)
      ensures GroupCoheres(mapped, n, values, GroupKey(mapped[i])) <==> GroupCoheres(relations, b, values, GroupKey(relations[i]))
      ensures mapped[i].active == relations[i].active && mapped[i] in mapped && relations[i] in relations
    {
      RelevantNormalizes(relations[i], n, b);
      GroupNormalizes(relations, n, b, values, GroupKey(relations[i]));
    }
    assert forall q :: q in mapped ==> exists i :: 0 <= i < |mapped| && mapped[i] == q;
    assert forall q :: q in relations ==> exists i :: 0 <= i < |relations| && relations[i] == q;
  }

  lemma ActiveChainNormalizes(c: ResourceCatalog, s: ResourceScope, unit: string,
      n: map<string, ResourceAttribute>, b: map<string, ResourceAttribute>, values: map<string, AttributeValue>)
    requires NormalBindings(n, b)
    ensures ActiveChain(Normal(c), s, unit, n, values) <==> ActiveChain(c, s, unit, b, values)
  {
    hide BindingActive, Relevant, ClassOf, FamilyOf, TypeOf, UnitActive, PolicyActive, NormalAttribute;
    RelationsNormalize(c.relations, n, b, values);
    forall code | code in b ensures BindingActive(Normal(c), code, n[code], values) == BindingActive(c, code, b[code], values) {
      BindingActiveNormalizes(c, code, b[code], values);
    }
  }

  lemma EffectNormalizes(a: ResourceAttribute, values: map<string, AttributeValue>)
    ensures Effective(NormalAttribute(a), values) == Effective(a, values)
  {
    hide FirstRule, NormalizedOptionSet;
  }

  lemma {:induction false} PartsNormalize(codes: seq<string>, n: map<string, ResourceAttribute>, b: map<string, ResourceAttribute>, values: map<string, AttributeValue>)
    requires NormalBindings(n, b)
    ensures Parts(codes, n, values) == Parts(codes, b, values)
  {
    hide Effective, NormalAttribute, TypeName, Printed;
    if codes != [] {
      var m := |codes| - 1;
      PartsNormalize(codes[..m], n, b, values);
      if codes[m] in b { EffectNormalizes(b[codes[m]], values); }
    }
  }

  lemma ModesNormalize(n: map<string, ResourceAttribute>, b: map<string, ResourceAttribute>, values: map<string, AttributeValue>)
    requires NormalBindings(n, b)
    ensures ModesHold(n, values) <==> ModesHold(b, values)
  {
    hide Effective, NormalAttribute, ModeHolds;
    forall code | code in b ensures Effective(n[code], values) == Effective(b[code], values) {
      EffectNormalizes(b[code], values);
    }
  }

  lemma OutcomeNormalizes(c: ResourceCatalog, scope: ResourceScope, unit: string, values: seq<AttributeValue>, requireActive: bool)
    ensures Outcome(Normal(c), scope, unit, values, requireActive) == Outcome(c, scope, unit, values, requireActive)
  {
    hide CanonicalScope, Canonical, ValuesFit, ByCode, Bindings, ActiveChain, RelationsCohere, ModesHold;
    hide SortedKeys, Present, Parts, IdentityKey;
    hide NormalAttribute, NormalOption, NormalRelation, NormalSet;
    var s := CanonicalScope(scope);
    var n, b := Bindings(Normal(c).attributes, s), Bindings(c.attributes, s);
    BindingsNormalize(c.attributes, s);
    ValuesFitNormalizes(c, n, b, values);
    assert ScopeAndUnitDefined(Normal(c), s, Canonical(unit)) <==> ScopeAndUnitDefined(c, s, Canonical(unit));
    if ValuesFit(c, b, values) {
      ByCodeNormalizes(c, n, b, values);
      var byCode := ByCode(c, b, values);
      ActiveChainNormalizes(c, s, Canonical(unit), n, b, byCode);
      RelationsNormalize(c.relations, n, b, byCode);
      ModesNormalize(n, b, byCode);
      PartsNormalize(SortedKeys(b.Keys), n, b, byCode);
    }
  }

  /** Equivalent catalogs give the same outcome of construction on every input. */
  lemma WriterCannotTell(a: ResourceCatalog, b: ResourceCatalog, scope: ResourceScope, unit: string,
      values: seq<AttributeValue>, requireActive: bool)
    requires EquivalentResourceCatalogs(a, b)
    ensures Outcome(a, scope, unit, values, requireActive) == Outcome(b, scope, unit, values, requireActive)
  {
    hide EquivalentResourceCatalogs, Normal, Outcome;
    EquivalentIffSameNormalForm(a, b);
    OutcomeNormalizes(a, scope, unit, values, requireActive);
    OutcomeNormalizes(b, scope, unit, values, requireActive);
  }

  // ----- nor anything the evaluator shows -----

  function NormalEntry(x: EffectiveAttribute): EffectiveAttribute {
    x.(attribute := NormalAttribute(x.attribute), options := Map(NormalOption, x.options))
  }

  /** An evaluation with the default option set spelled out. */
  function NormalEvaluation(r: Result<seq<EffectiveAttribute>>): Result<seq<EffectiveAttribute>> {
    if r.Ok? then Ok(Map(NormalEntry, r.value)) else r
  }

  lemma {:induction false} FilterMapped<T(!new)>(s: seq<T>, f: T -> T, p: T -> bool, q: T -> bool)
    requires forall x :: x in s ==> (p(f(x)) <==> q(x))
    ensures Filter(Map(f, s), p) == Map(f, Filter(s, q))
  {
    if s != [] {
      var n := |s| - 1;
      FilterMapped(s[..n], f, p, q);
      assert Map(f, s)[..n] == Map(f, s[..n]);
      assert s[n] in s;
      var before := Filter(s[..n], q);
      assert Map(f, before + [s[n]]) == Map(f, before) + [f(s[n])];
    }
  }

  lemma {:induction false} InsertMapped<T(!new)>(x: T, s: seq<T>, f: T -> T, leq: (T, T) -> bool)
    requires forall y, z :: leq(f(y), f(z)) <==> leq(y, z)
    ensures Insert(f(x), Map(f, s), leq) == Map(f, Insert(x, s, leq))
  {
    if s != [] {
      InsertMapped(x, s[1..], f, leq);
      assert Map(f, s)[1..] == Map(f, s[1..]);
      assert Map(f, [x] + s) == [f(x)] + Map(f, s);
      assert Map(f, [s[0]] + Insert(x, s[1..], leq)) == [f(s[0])] + Map(f, Insert(x, s[1..], leq));
    } else {
      assert Map(f, [x]) == [f(x)] && Map(f, s) == [];
    }
  }

  lemma {:induction false} SortMapped<T(!new)>(s: seq<T>, f: T -> T, leq: (T, T) -> bool)
    requires forall y, z :: leq(f(y), f(z)) <==> leq(y, z)
    ensures StableSort(Map(f, s), leq) == Map(f, StableSort(s, leq))
  {
    if s != [] {
      SortMapped(s[1..], f, leq);
      assert Map(f, s)[1..] == Map(f, s[1..]);
      InsertMapped(s[0], StableSort(s[1..], leq), f, leq);
    }
  }

  lemma OptionsNormalize(c: ResourceCatalog, a: ResourceAttribute)
    ensures OptionsOf(Normal(c), NormalAttribute(a)) == Map(NormalOption, OptionsOf(c, a))
  {
    hide SetKey, BindingCode, CanonicalAttribute, CanonicalOptionSet, NormalizedOptionSet, Filter, Map;
    SetKeyNormalizes(a);
    forall o | o in c.options ensures Offered(NormalAttribute(a))(NormalOption(o)) <==> Offered(a)(o) {
      SpellingIsCanonical(o.optionSet);
    }
    FilterMapped(c.options, NormalOption, Offered(NormalAttribute(a)), Offered(a));
  }

  lemma {:induction false} AllowedNormalizes(relations: seq<AttributeOptionRelation>, set_: string, code: string, chosen: map<string, AttributeValue>)
    ensures AllowedBy(Map(NormalRelation, relations), set_, code, chosen) == AllowedBy(relations, set_, code, chosen)
  {
    hide CanonicalAttribute, CanonicalOptionSet, NormalizedOptionSet;
    if relations != [] {
      var n := |relations| - 1;
      AllowedNormalizes(relations[..n], set_, code, chosen);
      assert Map(NormalRelation, relations)[..n] == Map(NormalRelation, relations[..n]);
      SpellingIsCanonical(relations[n].optionSet);
    }
  }

  lemma ValidOptionsNormalize(c: ResourceCatalog, a: ResourceAttribute, current: seq<AttributeValue>)
    ensures ValidOptionsOf(Normal(c), NormalAttribute(a), current) == Map(NormalOption, ValidOptionsOf(c, a, current))
  {
    hide SetKey, BindingCode, Chosen, AllowedBy, OptionsOf, Filter, Map, NormalAttribute, NormalizedOptionSet;
    SetKeyNormalizes(a);
    OptionsNormalize(c, a);
    AllowedNormalizes(c.relations, SetKey(a), BindingCode(a), Chosen(current));
    var allowed := AllowedBy(c.relations, SetKey(a), BindingCode(a), Chosen(current));
    FilterMapped(OptionsOf(c, a), NormalOption, CodeIn(allowed), CodeIn(allowed));
  }

  lemma ResolveNormalizes(c: ResourceCatalog, s: ResourceScope, current: seq<AttributeValue>, a: ResourceAttribute)
    ensures Resolve(Normal(c), s, current, NormalAttribute(a)) == NormalEntry(Resolve(c, s, current, a))
  {
    EffectNormalizes(a, Chosen(current));
    SetKeyNormalizes(a);
    ValidOptionsNormalize(c, a, current);
    hide Effective, Chosen, ValidOptionsOf, LargestPosition, BindingCode, NormalizedOptionSet, Map;
  }

  lemma ListNormalizes(c: ResourceCatalog, s: ResourceScope, current: seq<AttributeValue>)
    ensures Map(Resolver(Normal(c), s, current), AttributesOf(Normal(c), s)) == Map(NormalEntry, Map(Resolver(c, s, current), AttributesOf(c, s)))
  {
    hide Resolve, NormalEntry, NormalizedOptionSet, ScopeMatches;
    FilterMapped(c.attributes, NormalAttribute, AppliesTo(s), AppliesTo(s));
    var list := AttributesOf(c, s);
    assert AttributesOf(Normal(c), s) == Map(NormalAttribute, list);
    forall i | 0 <= i < |list| ensures Resolve(Normal(c), s, current, NormalAttribute(list[i])) == NormalEntry(Resolve(c, s, current, list[i])) {
      ResolveNormalizes(c, s, current, list[i]);
    }
  }

  lemma CanonicalListNormalizes(c: ResourceCatalog, n: map<string, ResourceAttribute>, b: map<string, ResourceAttribute>, values: seq<AttributeValue>)
    requires NormalBindings(n, b) && ValuesFit(c, b, values) && ValuesFit(Normal(c), n, values)
    ensures CanonicalList(Normal(c), n, values) == CanonicalList(c, b, values)
  {
    hide CanonicalValue, ValueCode, NormalAttribute, Normal;
    forall i | 0 <= i < |values|
      ensures CanonicalValue(Normal(c), n[ValueCode(values[i])], values[i]) == CanonicalValue(c, b[ValueCode(values[i])], values[i])
    {
      CanonicalValueNormalizes(c, b[ValueCode(values[i])], values[i]);
    }
  }

  lemma EvaluationNormalizes(c: ResourceCatalog, scope: ResourceScope, current: seq<AttributeValue>)
    ensures Evaluation(Normal(c), scope, current) == NormalEvaluation(Evaluation(c, scope, current))
  {
    hide CanonicalScope, ValuesFit, Bindings, CanonicalList, StableSort, Map, AttributesOf, Resolve, NormalAttribute;
    var s := CanonicalScope(scope);
    BindingsNormalize(c.attributes, s);
    var n, b := Bindings(Normal(c).attributes, s), Bindings(c.attributes, s);
    ValuesFitNormalizes(c, n, b, current);
    if ValuesFit(c, b, current) {
      CanonicalListNormalizes(c, n, b, current);
      var list := CanonicalList(c, b, current);
      ListNormalizes(c, s, list);
      SortMapped(Map(Resolver(c, s, list), AttributesOf(c, s)), NormalEntry, NotAfter);
    }
  }

  /** Equivalent catalogs show the same effective attributes, up to option-set spelling. */
  lemma EvaluatorCannotTell(a: ResourceCatalog, b: ResourceCatalog, scope: ResourceScope, current: seq<AttributeValue>)
    requires EquivalentResourceCatalogs(a, b)
    ensures NormalEvaluation(Evaluation(a, scope, current)) == NormalEvaluation(Evaluation(b, scope, current))
  {
    hide EquivalentResourceCatalogs, Normal, Evaluation, NormalEvaluation;
    EquivalentIffSameNormalForm(a, b);
    EvaluationNormalizes(a, scope, current);
    EvaluationNormalizes(b, scope, current);
  }
}

/** A small catalog with one controlled characteristic, and a resource it accepts: the hypotheses of
    the construction, identity and round-trip laws can be met. */
module Example {
  import opened Text
  import opened Catalog
  import opened Resource
  import opened Validation
  import opened EvaluatorLaws
  import opened Identity
  import opened Markers
  import opened ResourceRows

  /** Codes already in canonical form. */
  datatype Codes = Codes(klass: string, family: string, typ: string, unit: string, set_: string, characteristic: string, option: string, other: string)

  predicate Settled(n: Codes) {
    && Canonical(n.klass) == n.klass && Canonical(n.family) == n.family && Canonical(n.typ) == n.typ && n.typ != ""
    && Canonical(n.unit) == n.unit && CanonicalOptionSet(n.set_) == n.set_
    && CanonicalAttribute(n.characteristic) == n.characteristic && '|' !in n.characteristic
  }

  function Definition(n: Codes): AttributeDefinition { AttributeDefinition(n.characteristic, "N", ControlledOption, "", true, true) }

  function Binding(n: Codes): ResourceAttribute {
    ResourceAttribute(n.klass, n.family, n.typ, n.set_, Definition(n), Required, true, [], true)
  }

  function Small(n: Codes): ResourceCatalog {
    ResourceCatalog(
      [ResourceClass(n.klass, "N", "N", "N", [], [], 1, true)], [ResourceFamily(n.klass, n.family, "N", true)],
      [ResourceType(n.klass, n.family, n.typ, "N", true)], [],
      [UnitDefinition(n.unit, "N", "N", "N", true)], [ResourceUnitPolicy(n.klass, n.family, n.unit, true, true, true)],
      [Definition(n)], [Binding(n)], [AttributeOption(n.set_, n.characteristic, n.option, "N", true), AttributeOption(n.set_, n.characteristic, n.other, "N", true)], [],
      [ResourceOptionSet(n.set_, "N", true)])
  }

  function Scope(n: Codes): ResourceScope { ResourceScope(n.klass, n.family, n.typ) }

  /** One of the two options. */
  function Value(n: Codes, second: bool): AttributeValue {
    AttributeValue(n.characteristic, ControlledOption, if second then n.other else n.option, None, None, None, None, "")
  }

  lemma OneBinding(n: Codes)
    requires Settled(n)
    ensures CanonicalScope(Scope(n)) == Scope(n)
    ensures Bindings(Small(n).attributes, Scope(n)) == map[n.characteristic := Binding(n)]
  {
    hide Canonical, CanonicalAttribute, CanonicalOptionSet;
    var attributes := Small(n).attributes;
    assert attributes[..0] == [];
    assert Bindings([], Scope(n)) == map[];
    assert Applies(attributes[0], Scope(n)) && BindingCode(attributes[0]) == n.characteristic;
  }

  lemma ValueFits(n: Codes, second: bool)
    requires Settled(n)
    ensures var bound := map[n.characteristic := Binding(n)];
      ValuesFit(Small(n), bound, [Value(n, second)]) && ByCode(Small(n), bound, [Value(n, second)]) == map[n.characteristic := Value(n, second)]
  {
    hide Canonical, CanonicalAttribute, CanonicalOptionSet;
    var bound, values := map[n.characteristic := Binding(n)], [Value(n, second)];
    var o := Small(n).options[if second then 1 else 0];
    assert o in Small(n).options && IsOptionOf(o, n.characteristic, n.set_, Value(n, second).optionCode);
    assert CanonicalValue(Small(n), Binding(n), Value(n, second)) == Ok(Value(n, second));
    assert values[..0] == [] && ByCode(Small(n), bound, []) == map[];
  }

  lemma ScopeDefined(n: Codes)
    requires Settled(n)
    ensures ScopeAndUnitDefined(Small(n), Scope(n), n.unit)
  {
    hide Canonical;
    var c := Small(n);
    assert c.families[0] in c.families && c.types[0] in c.types && c.units[0] in c.units && c.unitPolicies[0] in c.unitPolicies;
    assert FamilyOf(c.families[0], Scope(n)) && TypeOf(c.types[0], Scope(n)) && PolicyFor(c.unitPolicies[0], Scope(n), n.unit);
  }

  lemma {:induction false} ActiveOptionsPass(options: seq<AttributeOption>, code: string, set_: string, raw: string)
    requires forall o :: o in options ==> o.active
    ensures OptionActive(options, code, set_, raw)
  {
    hide IsOptionOf;
    if options != [] {
      assert options[0] in options && forall o :: o in options[1..] ==> o in options;
      ActiveOptionsPass(options[1..], code, set_, raw);
    }
  }

  lemma ParentsAreOn(n: Codes)
    requires Settled(n)
    ensures UnitActive(Small(n).units, n.unit) && PolicyActive(Small(n).unitPolicies, Scope(n), n.unit)
    ensures DefinitionActive(Small(n), n.characteristic, Binding(n)) && OptionSetActive(Small(n).optionSets, SetKey(Binding(n)))
  {
    hide Canonical, CanonicalAttribute, CanonicalOptionSet;
  }

  lemma BindingIsOn(n: Codes, second: bool)
    requires Settled(n)
    ensures BindingActive(Small(n), n.characteristic, Binding(n), map[n.characteristic := Value(n, second)])
  {
    ActiveOptionsPass(Small(n).options, n.characteristic, n.set_, Value(n, second).optionCode);
    ParentsAreOn(n);
    hide Canonical, CanonicalAttribute, OptionActive, DefinitionActive, OptionSetActive;
  }

  lemma ChainIsActive(n: Codes, second: bool)
    requires Settled(n)
    ensures var bound, values := map[n.characteristic := Binding(n)], map[n.characteristic := Value(n, second)];
      ActiveChain(Small(n), Scope(n), n.unit, bound, values)
  {
    ParentsAreOn(n);
    BindingIsOn(n, second);
    hide Settled, Canonical, CanonicalAttribute, CanonicalOptionSet, UnitActive, PolicyActive, BindingActive, ClassOf, FamilyOf, TypeOf, Relevant;
  }

  lemma ModesAreMet(n: Codes, second: bool)
    ensures var bound, values := map[n.characteristic := Binding(n)], map[n.characteristic := Value(n, second)];
      ModesHold(bound, values) && RelationsCohere(Small(n).relations, bound, values)
  {
    hide CanonicalAttribute, Canonical;
    assert FirstRule(Binding(n).rules, map[n.characteristic := Value(n, second)]) == None;
  }

  /** The resource is accepted with all activity checks on. */
  lemma SmallCatalogAccepts(n: Codes, second: bool)
    requires Settled(n)
    ensures Accepts(Small(n), Scope(n), n.unit, [Value(n, second)], true)
  {
    OneBinding(n);
    ValueFits(n, second);
    ScopeDefined(n);
    ChainIsActive(n, second);
    ModesAreMet(n, second);
    hide Canonical, CanonicalScope, Bindings, ValuesFit, ByCode, ScopeAndUnitDefined, ActiveChain, ModesHold, RelationsCohere, Small, Value, Binding;
  }

  /** The conditions of the options law hold as well. */
  lemma SmallCatalogKeepsOptionsInScope(n: Codes)
    requires Settled(n)
    ensures var bound := Bindings(Small(n).attributes, CanonicalScope(Scope(n)));
      ActiveSemantics(Small(n)) && NoSeparator(bound) && RelationsStayInScope(Small(n).relations, bound)
  {
    OneBinding(n);
    hide Canonical, CanonicalScope, Bindings;
  }

  // ----- a row whose option is changed -----

  lemma OneKey(a: string)
    ensures SortedKeys({a}) == [a]
  {
    ListingUnique(SortedKeys({a}), [a], {a});
  }

  lemma PartsOfOne(n: Codes, second: bool)
    ensures var bound, byCode := map[n.characteristic := Binding(n)], map[n.characteristic := Value(n, second)];
      Parts([n.characteristic], bound, byCode) == [Part(n.characteristic, "CONTROLLED_OPTION", Value(n, second).optionCode)]
  {
    var bound, byCode := map[n.characteristic := Binding(n)], map[n.characteristic := Value(n, second)];
    hide CanonicalAttribute, Canonical;
    assert [n.characteristic][..0] == [];
    assert Parts([], bound, byCode) == [];
    assert Effective(Binding(n), byCode).participates;
  }

  lemma OnePart(n: Codes, second: bool)
    requires Settled(n)
    ensures ValuesFit(Small(n), Bindings(Small(n).attributes, CanonicalScope(Scope(n))), [Value(n, second)])
    ensures Participating(Small(n), Scope(n), [Value(n, second)]) == [Part(n.characteristic, "CONTROLLED_OPTION", Value(n, second).optionCode)]
  {
    OneBinding(n);
    ValueFits(n, second);
    OneKey(n.characteristic);
    PartsOfOne(n, second);
    hide CanonicalScope, Bindings, ValuesFit, ByCode, SortedKeys, Parts, Settled, Small, Value;
    assert map[n.characteristic := Binding(n)].Keys == {n.characteristic};
  }

  lemma DifferentOptionsDifferentKeys(n: Codes)
    requires Settled(n) && n.option != n.other
    ensures Accepts(Small(n), Scope(n), n.unit, [Value(n, false)], true) && Accepts(Small(n), Scope(n), n.unit, [Value(n, true)], true)
    ensures Built(Small(n), Scope(n), n.unit, [Value(n, false)]).identityKey != Built(Small(n), Scope(n), n.unit, [Value(n, true)]).identityKey
  {
    SmallCatalogAccepts(n, false);
    SmallCatalogAccepts(n, true);
    OnePart(n, false);
    OnePart(n, true);
    hide Accepts, Small, Scope, Participating, ValuesFit, CanonicalScope, Bindings;
    DuplicateIffSameIdentity(Small(n), Scope(n), n.unit, [Value(n, false)], true, Small(n), Scope(n), n.unit, [Value(n, true)], true);
    BuiltKeyNonEmpty(Small(n), Scope(n), n.unit, [Value(n, false)]);
  }

  lemma BuiltKeyNonEmpty(c: ResourceCatalog, scope: ResourceScope, unit: string, values: seq<AttributeValue>)
    requires ValuesFit(c, Bindings(c.attributes, CanonicalScope(scope)), values)
    ensures Built(c, scope, unit, values).identityKey != ""
  {
    hide ValuesFit, ByCode, Bindings, IdentityKey, Parts;
    var bound := Bindings(c.attributes, CanonicalScope(scope));
    KeyNonEmpty(CanonicalScope(scope), Parts(SortedKeys(bound.Keys), bound, ByCode(c, bound, values)));
  }

  /** A stored resource whose identity option is updated keeps its old key and can no longer be
      reactivated, although both resources are accepted. */
  lemma ChangedOptionCannotReturn(n: Codes, stored: Resource, next: Resource)
    requires Settled(n) && n.option != n.other
    requires Outcome(Small(n), Scope(n), n.unit, [Value(n, false)], true) == Ok(stored)
    requires Outcome(Small(n), Scope(n), n.unit, [Value(n, true)], true) == Ok(next)
    ensures !Rebuilds(Small(n), Replaced(stored, next))
  {
    DifferentOptionsDifferentKeys(n);
    NoMarkersHere(n);
    var c, s, unit, values := Small(n), Scope(n), n.unit, [Value(n, true)];
    KeyIsSameIff(c, s, unit, values);
    UpdatedRowRebuildsIff(c, s, unit, values, stored);
    hide Small, Scope, Value, Settled, ValuesFit, ByCode, Bindings, CanonicalScope, RulesIgnoreMarkers, MarkersOptional, MarkersOutside, Rebuilds, KeyWithoutMarkers;
    hide ScopeAndUnitDefined, ActiveChain, RelationsCohere, ModesHold, IdentityKey, Parts, Present;
  }

  lemma NoMarkersHere(n: Codes)
    requires Settled(n)
    ensures var bound := Bindings(Small(n).attributes, CanonicalScope(Scope(n)));
      && ValuesFit(Small(n), bound, [Value(n, true)])
      && RulesIgnoreMarkers(bound, ByCode(Small(n), bound, [Value(n, true)]))
      && MarkersOutside(bound, ByCode(Small(n), bound, [Value(n, true)]))
  {
    OneBinding(n);
    ValueFits(n, true);
    hide Bindings, ValuesFit, ByCode, CanonicalScope, CanonicalAttribute;
  }

  lemma SettledCodesExist()
    ensures Settled(Codes("C", "F", "T", "U", "S", "a", "X", "Y"))
  {
    CapitalLetter('C');
    CapitalLetter('F');
    CapitalLetter('T');
    CapitalLetter('U');
    CapitalLetter('S');
    SmallLetter('a');
  }
}

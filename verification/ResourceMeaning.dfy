/** What acceptance means, said of the catalog rows, rules and values themselves. */
module ResourceMeaning {
  import opened Text
  import opened Sorting
  import opened Catalog
  import opened Resource
  import opened ResourceBuild
  import opened ResourceLaws

  // ----- scopes -----

  /** With a type on both sides a row applies exactly to its own scope; a blank type on either side
      stands for every type of the family. */
  lemma ScopeMatchesMeans(s: ResourceScope, klass: string, family: string, typ: string)
    ensures Canonical(s.typeCode) != "" && Canonical(typ) != "" ==>
      (ScopeMatches(s, klass, family, typ) <==> CanonicalScope(s) == CanonicalScope(ResourceScope(klass, family, typ)))
    ensures Canonical(s.typeCode) == "" || Canonical(typ) == "" ==>
      (ScopeMatches(s, klass, family, typ) <==> CanonicalScope(s).(typeCode := "") == CanonicalScope(ResourceScope(klass, family, typ)).(typeCode := ""))
  {
    hide Canonical;
  }

  /** The scope's family and type have rows, a type is named, and some allowed policy and some row of the
      unit exist. */
  lemma ScopeAndUnitMeans(c: ResourceCatalog, s: ResourceScope, unit: string)
    ensures ScopeAndUnitDefined(c, s, unit) <==>
      && (exists f :: f in c.families && Canonical(f.classCode) == s.classCode && Canonical(f.code) == s.familyCode)
      && s.typeCode != ""
      && (exists t :: t in c.types && Canonical(t.classCode) == s.classCode && Canonical(t.familyCode) == s.familyCode && Canonical(t.code) == s.typeCode)
      && (exists p :: p in c.unitPolicies && Canonical(p.classCode) == s.classCode && Canonical(p.familyCode) == s.familyCode &&
            Canonical(p.unitCode) == unit && p.allowed)
      && (exists u :: u in c.units && Canonical(u.code) == unit)
  {
    hide Canonical;
  }

  // ----- canonical values -----

  /** Whether a value can be made canonical, type by type. */
  predicate Presentable(c: ResourceCatalog, a: ResourceAttribute, v: AttributeValue) {
    && v.typ == a.definition.valueType && !v.typ.OtherType?
    && (v.typ == ControlledOption ==>
          exists o :: o in c.options && CanonicalAttribute(o.attributeCode) == CanonicalAttribute(a.definition.code) &&
            CanonicalOptionSet(o.optionSet) == CanonicalOptionSet(a.optionSet) && o.code == v.optionCode)
    && (v.typ == QuantityType ==> v.quantity.Some? && v.quantity.value.amount.sign > 0)
    && (v.typ == IntegerType ==> v.integer.Some?) && (v.typ == DecimalType ==> v.decimal.Some?) && (v.typ == BooleanType ==> v.boolean.Some?)
    && (v.typ == ControlledText ==> TrimSpace(v.text) != "")
  }

  /** A presentable value keeps everything but the spelling of its code, of a text and of a unit; any
      other is refused. */
  lemma CanonicalValueMeans(c: ResourceCatalog, a: ResourceAttribute, v: AttributeValue)
    ensures CanonicalValue(c, a, v) ==
      if !Presentable(c, a, v) then Err(Validation)
      else if v.typ == ControlledText then Ok(v.(attributeCode := CanonicalAttribute(v.attributeCode), text := Squeeze(v.text)))
      else if v.typ == QuantityType then
        Ok(v.(attributeCode := CanonicalAttribute(v.attributeCode), quantity := Some(v.quantity.value.(unitCode := Canonical(v.quantity.value.unitCode)))))
      else Ok(v.(attributeCode := CanonicalAttribute(v.attributeCode)))
  {
    hide Canonical, CanonicalAttribute, CanonicalOptionSet, Squeeze, TrimSpace;
    assert v.typ == ControlledOption && v.typ == a.definition.valueType ==>
      (Presentable(c, a, v) <==> HasOption(c.options, BindingCode(a), SetKey(a), v.optionCode));
  }

  // ----- rules and modes -----

  predicate Fires(r: AttributeRule, values: map<string, AttributeValue>) {
    CanonicalAttribute(r.whenAttribute) in values && values[CanonicalAttribute(r.whenAttribute)].optionCode == Canonical(r.whenEquals)
  }

  /** Rule `i` is the first that fires. */
  predicate FirstFiring(rules: seq<AttributeRule>, values: map<string, AttributeValue>, i: int) {
    0 <= i < |rules| && Fires(rules[i], values) && forall j :: 0 <= j < i ==> !Fires(rules[j], values)
  }

  lemma {:induction false} FirstRuleMeans(rules: seq<AttributeRule>, values: map<string, AttributeValue>)
    ensures forall i :: FirstFiring(rules, values, i) ==> FirstRule(rules, values) == Some(rules[i])
    ensures FirstRule(rules, values) == None <==> forall i :: 0 <= i < |rules| ==> !Fires(rules[i], values)
    ensures FirstRule(rules, values).Some? ==> exists i :: FirstFiring(rules, values, i)
  {
    hide Canonical, CanonicalAttribute;
    if rules != [] {
      FirstRuleMeans(rules[1..], values);
      assert Fires(rules[0], values) <==> RuleFires(rules[0], values);
      if Fires(rules[0], values) {
        assert FirstFiring(rules, values, 0);
      } else if FirstRule(rules[1..], values).Some? {
        var i :| FirstFiring(rules[1..], values, i);
        assert rules[1..][i] == rules[i + 1];
        assert FirstFiring(rules, values, i + 1) by { assert forall j :: 0 < j < i + 1 ==> rules[j] == rules[1..][j - 1]; }
      }
      forall i | FirstFiring(rules, values, i) ensures FirstRule(rules, values) == Some(rules[i]) {
        if i > 0 {
          assert forall j :: 0 <= j < i - 1 ==> rules[1..][j] == rules[j + 1];
          assert FirstFiring(rules[1..], values, i - 1);
        }
      }
    }
  }

  /** The first rule that fires decides mode, identity and applicability; without one the binding does, an
      unmatched conditional counting as required. */
  lemma EffectiveMeans(a: ResourceAttribute, values: map<string, AttributeValue>)
    ensures forall i :: FirstFiring(a.rules, values, i) ==>
      Effective(a, values) == Effect(a.rules[i].mode, a.rules[i].identityParticipates, a.rules[i].notApplicable)
    ensures (forall i :: 0 <= i < |a.rules| ==> !Fires(a.rules[i], values)) ==>
      Effective(a, values) == Effect(if a.mode == Conditional then Required else a.mode, a.identityParticipates, false)
  {
    hide Fires;
    FirstRuleMeans(a.rules, values);
  }

  /** Required values are there, forbidden ones are not, and no mode is left conditional. */
  predicate Meets(mode: Mode, present: bool) {
    (mode == Required ==> present) && (mode == Forbidden ==> !present) && mode != Conditional
  }

  /** The deciding rule, or else the binding itself, is met, and no value is given where the deciding rule
      says it does not apply. */
  ghost predicate ModeMet(a: ResourceAttribute, values: map<string, AttributeValue>, present: bool) {
    && (forall i :: FirstFiring(a.rules, values, i) ==> Meets(a.rules[i].mode, present) && !(present && a.rules[i].notApplicable))
    && ((forall i :: 0 <= i < |a.rules| ==> !Fires(a.rules[i], values)) ==> Meets(if a.mode == Conditional then Required else a.mode, present))
  }

  lemma OneModeMeans(a: ResourceAttribute, values: map<string, AttributeValue>, present: bool)
    ensures ModeHolds(Effective(a, values), present) <==> ModeMet(a, values, present)
  {
    EffectiveMeans(a, values);
    FirstRuleMeans(a.rules, values);
    hide Effective, Fires;
    if i :| FirstFiring(a.rules, values, i) {
      assert !(forall j :: 0 <= j < |a.rules| ==> !Fires(a.rules[j], values));
    }
  }

  /** The modes hold exactly when every bound attribute's mode is met. */
  lemma ModesMean(bound: map<string, ResourceAttribute>, values: map<string, AttributeValue>)
    ensures ModesHold(bound, values) <==> forall code :: code in bound ==> ModeMet(bound[code], values, code in values)
  {
    hide Effective, ModeMet;
    forall code | code in bound ensures ModeHolds(Effective(bound[code], values), code in values) <==> ModeMet(bound[code], values, code in values) {
      OneModeMeans(bound[code], values, code in values);
    }
  }

  // ----- the active chain -----

  /** The first row that matches is on. */
  ghost predicate FirstOn<T(!new)>(rows: seq<T>, matches: T -> bool, on: T -> bool) {
    exists i :: 0 <= i < |rows| && matches(rows[i]) && (forall j :: 0 <= j < i ==> !matches(rows[j])) && on(rows[i])
  }

  lemma FirstOnStep<T(!new)>(rows: seq<T>, matches: T -> bool, on: T -> bool)
    requires rows != []
    ensures FirstOn(rows, matches, on) <==> if matches(rows[0]) then on(rows[0]) else FirstOn(rows[1..], matches, on)
  {
    if !matches(rows[0]) {
      if FirstOn(rows, matches, on) {
        var i :| 0 <= i < |rows| && matches(rows[i]) && (forall j :: 0 <= j < i ==> !matches(rows[j])) && on(rows[i]);
        assert rows[1..][i - 1] == rows[i] && forall j :: 0 <= j < i - 1 ==> rows[1..][j] == rows[j + 1];
      }
      if FirstOn(rows[1..], matches, on) {
        var i :| 0 <= i < |rows[1..]| && matches(rows[1..][i]) && (forall j :: 0 <= j < i ==> !matches(rows[1..][j])) && on(rows[1..][i]);
        assert rows[i + 1] == rows[1..][i] && forall j :: 0 < j < i + 1 ==> rows[j] == rows[1..][j - 1];
      }
    } else if FirstOn(rows, matches, on) {
      var i :| 0 <= i < |rows| && matches(rows[i]) && (forall j :: 0 <= j < i ==> !matches(rows[j])) && on(rows[i]);
      assert i == 0;
    }
  }

  function UnitNamed(unit: string): UnitDefinition -> bool { (u: UnitDefinition) => Canonical(u.code) == unit }
  function UnitOn(u: UnitDefinition): bool { u.active }
  function PolicyNamed(s: ResourceScope, unit: string): ResourceUnitPolicy -> bool {
    (p: ResourceUnitPolicy) => Canonical(p.classCode) == s.classCode && Canonical(p.familyCode) == s.familyCode && Canonical(p.unitCode) == unit && p.allowed
  }
  function PolicyOn(p: ResourceUnitPolicy): bool { p.active }
  function SetNamed(set_: string): ResourceOptionSet -> bool { (t: ResourceOptionSet) => CanonicalOptionSet(t.code) == set_ }
  function SetOn(t: ResourceOptionSet): bool { t.active }
  function DefinitionNamed(code: string): AttributeDefinition -> bool { (d: AttributeDefinition) => CanonicalAttribute(d.code) == code }
  function DefinitionOn(d: AttributeDefinition): bool { d.active }
  function OptionNamed(code: string, set_: string, raw: string): AttributeOption -> bool {
    (o: AttributeOption) => CanonicalAttribute(o.attributeCode) == code && CanonicalOptionSet(o.optionSet) == set_ && o.code == raw
  }
  function OptionOn(o: AttributeOption): bool { o.active }

  lemma {:induction false} UnitActiveMeans(units: seq<UnitDefinition>, unit: string)
    ensures UnitActive(units, unit) <==> FirstOn(units, UnitNamed(unit), UnitOn)
  {
    hide Canonical;
    if units != [] { FirstOnStep(units, UnitNamed(unit), UnitOn); UnitActiveMeans(units[1..], unit); hide FirstOn; }
  }

  lemma {:induction false} PolicyActiveMeans(policies: seq<ResourceUnitPolicy>, s: ResourceScope, unit: string)
    ensures PolicyActive(policies, s, unit) <==> FirstOn(policies, PolicyNamed(s, unit), PolicyOn)
  {
    hide Canonical;
    if policies != [] { FirstOnStep(policies, PolicyNamed(s, unit), PolicyOn); PolicyActiveMeans(policies[1..], s, unit); hide FirstOn; }
  }

  lemma {:induction false} OptionSetActiveMeans(sets: seq<ResourceOptionSet>, set_: string)
    ensures OptionSetActive(sets, set_) <==> FirstOn(sets, SetNamed(set_), SetOn)
  {
    hide CanonicalOptionSet;
    if sets != [] { FirstOnStep(sets, SetNamed(set_), SetOn); OptionSetActiveMeans(sets[1..], set_); hide FirstOn; }
  }

  lemma {:induction false} OptionActiveMeans(options: seq<AttributeOption>, code: string, set_: string, raw: string)
    ensures OptionActive(options, code, set_, raw) <==>
      (forall o :: o in options ==> !OptionNamed(code, set_, raw)(o)) || FirstOn(options, OptionNamed(code, set_, raw), OptionOn)
  {
    hide CanonicalOptionSet, CanonicalAttribute;
    if options != [] {
      FirstOnStep(options, OptionNamed(code, set_, raw), OptionOn);
      OptionActiveMeans(options[1..], code, set_, raw);
      assert options == [options[0]] + options[1..];
      hide FirstOn;
    }
  }

  lemma {:induction false} DefinitionFoundMeans(definitions: seq<AttributeDefinition>, code: string)
    ensures FindDefinition(definitions, code) == None <==> forall d :: d in definitions ==> !DefinitionNamed(code)(d)
    ensures FindDefinition(definitions, code).Some? ==> (FindDefinition(definitions, code).value.active <==> FirstOn(definitions, DefinitionNamed(code), DefinitionOn))
  {
    hide CanonicalAttribute;
    if definitions != [] {
      FirstOnStep(definitions, DefinitionNamed(code), DefinitionOn);
      DefinitionFoundMeans(definitions[1..], code);
      assert definitions == [definitions[0]] + definitions[1..];
      hide FirstOn;
    }
  }

  /** Everything a binding stands on is active. */
  ghost predicate BindingOn(c: ResourceCatalog, code: string, a: ResourceAttribute, values: map<string, AttributeValue>) {
    && a.active && (forall r :: r in a.rules ==> r.active)
    && (if forall d :: d in c.definitions ==> !DefinitionNamed(code)(d) then a.definition.active
        else FirstOn(c.definitions, DefinitionNamed(code), DefinitionOn))
    && FirstOn(c.optionSets, SetNamed(CanonicalOptionSet(a.optionSet)), SetOn)
    && (code in values && values[code].typ == ControlledOption ==>
          var named := OptionNamed(code, CanonicalOptionSet(a.optionSet), values[code].optionCode);
          (forall o :: o in c.options ==> !named(o)) || FirstOn(c.options, named, OptionOn))
  }

  lemma BindingActiveMeans(c: ResourceCatalog, code: string, a: ResourceAttribute, values: map<string, AttributeValue>)
    ensures BindingActive(c, code, a, values) <==> BindingOn(c, code, a, values)
  {
    hide FirstOn, OptionActive, OptionSetActive, FindDefinition, CanonicalOptionSet, CanonicalAttribute, OptionNamed, SetNamed, DefinitionNamed;
    DefinitionFoundMeans(c.definitions, code);
    OptionSetActiveMeans(c.optionSets, CanonicalOptionSet(a.optionSet));
    if code in values { OptionActiveMeans(c.options, code, CanonicalOptionSet(a.optionSet), values[code].optionCode); }
  }

  /** With option sets in the catalog the chain is active exactly when every class, family and type row of
      the scope is, the first rows of unit and allowed policy are, every binding stands on active rows,
      and every relation between bound attributes of one set is active. */
  lemma ActiveChainMeans(c: ResourceCatalog, s: ResourceScope, unit: string, bound: map<string, ResourceAttribute>, values: map<string, AttributeValue>)
    requires c.optionSets != []
    ensures ActiveChain(c, s, unit, bound, values) <==>
      && (forall k :: k in c.classes && Canonical(k.code) == s.classCode ==> k.active)
      && (forall f :: f in c.families && Canonical(f.classCode) == s.classCode && Canonical(f.code) == s.familyCode ==> f.active)
      && (forall t :: t in c.types && Canonical(t.classCode) == s.classCode && Canonical(t.familyCode) == s.familyCode && Canonical(t.code) == s.typeCode ==> t.active)
      && FirstOn(c.units, UnitNamed(unit), UnitOn) && FirstOn(c.unitPolicies, PolicyNamed(s, unit), PolicyOn)
      && (forall code :: code in bound ==> BindingOn(c, code, bound[code], values))
      && (forall r :: r in c.relations && Relevant(r, bound) ==> r.active)
  {
    UnitActiveMeans(c.units, unit);
    PolicyActiveMeans(c.unitPolicies, s, unit);
    hide Canonical, FirstOn, UnitActive, PolicyActive, UnitNamed, PolicyNamed, BindingActive, BindingOn, Relevant;
    forall code | code in bound ensures BindingActive(c, code, bound[code], values) <==> BindingOn(c, code, bound[code], values) {
      BindingActiveMeans(c, code, bound[code], values);
    }
  }

  // ----- acceptance -----

  /** The values fit exactly when their codes differ, each code is bound, and each value can be made
      canonical. */
  lemma FittingValuesMean(c: ResourceCatalog, bound: map<string, ResourceAttribute>, values: seq<AttributeValue>)
    ensures ValuesFit(c, bound, values) <==>
      && (forall i, j :: 0 <= i < j < |values| ==> CanonicalAttribute(values[i].attributeCode) != CanonicalAttribute(values[j].attributeCode))
      && (forall v :: v in values ==> CanonicalAttribute(v.attributeCode) in bound && Presentable(c, bound[CanonicalAttribute(v.attributeCode)], v))
  {
    hide CanonicalAttribute, CanonicalValue, Presentable;
    forall v | v in values && CanonicalAttribute(v.attributeCode) in bound
      ensures CanonicalValue(c, bound[CanonicalAttribute(v.attributeCode)], v).Ok? <==> Presentable(c, bound[CanonicalAttribute(v.attributeCode)], v)
    {
      CanonicalValueMeans(c, bound[CanonicalAttribute(v.attributeCode)], v);
    }
  }

  /** A resource is accepted exactly when scope and unit are defined, the values fit, the chain is active
      where that is asked for, relations cohere and modes hold.  An inactive chain under a defined scope
      and fitting values is a reference error, every other refusal a validation error. */
  lemma OutcomeMeans(c: ResourceCatalog, scope: ResourceScope, unit: string, values: seq<AttributeValue>, active: bool)
    ensures var s, outcome := CanonicalScope(scope), Outcome(c, scope, unit, values, active);
      var bound := Bindings(c.attributes, s);
      var fits := ScopeAndUnitDefined(c, s, Canonical(unit)) && ValuesFit(c, bound, values);
      && (outcome.Ok? ==> fits)
      && (!fits ==> outcome == Err(Validation))
      && (fits ==>
            var chain := !active || ActiveChain(c, s, Canonical(unit), bound, ByCode(c, bound, values));
            var rules := RelationsCohere(c.relations, bound, ByCode(c, bound, values)) && ModesHold(bound, ByCode(c, bound, values));
            && (outcome.Ok? <==> chain && rules)
            && (!chain ==> outcome == Err(Error.Reference))
            && (chain && !rules ==> outcome == Err(Validation)))
  {
    hide ScopeAndUnitDefined, ValuesFit, ActiveChain, RelationsCohere, ModesHold, ByCode, Bindings, CanonicalScope;
  }

  // ----- the accepted resource -----

  /** An accepted resource is active, carries the canonical scope and unit, and lists the canonical form of
      every value, and nothing else, by strictly increasing code. */
  lemma AcceptedResourceMeans(c: ResourceCatalog, scope: ResourceScope, unit: string, values: seq<AttributeValue>, active: bool, r: Resource)
    requires Outcome(c, scope, unit, values, active) == Ok(r)
    ensures r.active && r.id == 0
    ensures r.classCode == Canonical(scope.classCode) && r.familyCode == Canonical(scope.familyCode) && r.typeCode == Canonical(scope.typeCode)
    ensures r.naturalUnit == Canonical(unit)
    ensures forall i, j :: 0 <= i < j < |r.attributes| ==> Less(r.attributes[i].attributeCode, r.attributes[j].attributeCode)
    ensures var bound := Bindings(c.attributes, CanonicalScope(scope));
      && (forall v :: v in values ==>
            var form := if ValueCode(v) in bound then CanonicalValue(c, bound[ValueCode(v)], v) else Err(Validation);
            form.Ok? && form.value in r.attributes)
      && (forall u :: u in r.attributes ==> exists v :: v in values && ValueCode(v) in bound && CanonicalValue(c, bound[ValueCode(v)], v) == Ok(u))
  {
    hide Canonical, CanonicalValue, ValueCode, ScopeAndUnitDefined, ActiveChain, RelationsCohere, ModesHold, IdentityKey, Parts, Less, Present, Bindings, ByCode;
    var bound := Bindings(c.attributes, CanonicalScope(scope));
    var byCode, codes := ByCode(c, bound, values), SortedKeys(bound.Keys);
    ByCodeHolds(c, bound, values);
    ByCodeIsKeyed(c, bound, values);
    KeysAreBound(c, bound, values);
    PresentSorted(codes, byCode);
    forall v | v in values ensures CanonicalValue(c, bound[ValueCode(v)], v).value in r.attributes {
      PresentHolds(codes, byCode, ValueCode(v));
    }
    forall u | u in r.attributes ensures exists v :: v in values && ValueCode(v) in bound && CanonicalValue(c, bound[ValueCode(v)], v) == Ok(u) {
      var v :| v in values && ValueCode(v) == u.attributeCode;
    }
  }
}

/** What a mutation does to the element it names, field by field, for each of the eleven kinds. */
module MutationMeaning {
  import opened Text
  import opened Catalog
  import opened Resource
  import opened Validation
  import opened Mutation
  import opened MutationLaws

  // ----- records -----

  /** What a record says under a name it does not have is empty. */
  lemma FieldsRead(r: Record, name: string)
    ensures name in r.values ==>
      && TextOf(r, name) == r.values[name].text && FlagOf(r, name) == r.values[name].flag && NumberOf(r, name) == r.values[name].number
      && ListOf(r, name) == r.values[name].list && RefOf(r, name) == r.values[name].refCode
    ensures name !in r.values ==>
      TextOf(r, name) == "" && FlagOf(r, name) == false && NumberOf(r, name) == 0 && ListOf(r, name) == [] && RefOf(r, name) == ""
  {}

  /** A value type is stored under its own name. */
  lemma ValueTypeNames(s: string)
    ensures TypeName(ParseValueType(s)) == s
    ensures ParseValueType("CONTROLLED_OPTION") == ControlledOption && ParseValueType("INTEGER") == IntegerType && ParseValueType("DECIMAL") == DecimalType
    ensures ParseValueType("QUANTITY") == QuantityType && ParseValueType("BOOLEAN") == BooleanType && ParseValueType("CONTROLLED_TEXT") == ControlledText
  {
    assert |"CONTROLLED_OPTION"| == 17 && |"INTEGER"| == 7 && |"DECIMAL"| == 7 && |"QUANTITY"| == 8 && |"BOOLEAN"| == 7 && |"CONTROLLED_TEXT"| == 15;
    assert "INTEGER"[0] != "DECIMAL"[0] && "INTEGER"[0] != "BOOLEAN"[0] && "DECIMAL"[0] != "BOOLEAN"[0];
  }

  function ModeName(m: Mode): string {
    match m
    case Required => "REQUIRED"
    case Optional => "OPTIONAL"
    case Conditional => "CONDITIONAL"
    case Forbidden => "FORBIDDEN"
    case OtherMode(name) => name
  }

  lemma ModeNames(s: string)
    ensures ModeName(ParseMode(s)) == s
    ensures forall m: Mode :: !m.OtherMode? ==> ParseMode(ModeName(m)) == m
  {
    assert |"REQUIRED"| == 8 && |"OPTIONAL"| == 8 && |"CONDITIONAL"| == 11 && |"FORBIDDEN"| == 9;
    assert "REQUIRED"[0] != "OPTIONAL"[0];
  }

  /** The record whose fields an insert or update writes. */
  function Written(m: CatalogMutation): Record { if m.replacement.Some? then m.replacement.value else m.record }

  // ----- one collection -----

  ghost predicate First<T(!new)>(s: seq<T>, same: T -> bool, i: int) {
    0 <= i < |s| && same(s[i]) && forall j :: 0 <= j < i ==> !same(s[j])
  }

  function Acted<T>(s: seq<T>, op: Op, i: int, built: T, setOn: (T, bool) -> T): seq<T>
    requires 0 <= i < |s|
  {
    match op
    case Update => s[i := built]
    case Delete => s[..i] + s[i + 1..]
    case _ => s[i := setOn(s[i], op == Reactivate)]
  }

  /** An insert appends; every other operation finds the first element of the identity or fails, and then
      replaces it, removes it, or sets its activity and nothing else. */
  ghost predicate Acts<T(!new)>(s: seq<T>, op: Op, same: T -> bool, built: T, setOn: (T, bool) -> T, out: Result<seq<T>>) {
    match op
    case Insert => out == Ok(s + [built])
    case OtherOp => out == Err(OpUnknown)
    case _ =>
      if forall x :: x in s ==> !same(x) then out == Err(NotFound)
      else exists i :: First(s, same, i) && out == Ok(Acted(s, op, i, built, setOn))
  }

  lemma MutatedActs<T(!new)>(s: seq<T>, op: Op, matches: T -> bool, same: T -> bool, built: T, withActive: (T, bool) -> T, setOn: (T, bool) -> T)
    requires (forall x :: matches(x) <==> same(x)) && forall x, on :: withActive(x, on) == setOn(x, on)
    ensures Acts(s, op, same, built, setOn, Mutated(s, op, matches, built, withActive))
  {
    var i := IndexOf(s, matches);
    if i >= 0 {
      assert First(s, same, i) && s[i] in s;
    } else {
      assert forall x :: x in s ==> !same(x);
    }
    hide IndexOf;
  }

  // ----- the kinds without embedded definitions -----

  lemma ClassMutation(c: ResourceCatalog, m: CatalogMutation)
    requires m.record.kind == KindClass
    ensures var r, b, out := m.record, Written(m), ApplyCatalogMutation(c, m);
      && (out.Ok? ==> out.value == c.(classes := out.value.classes))
      && Acts(c.classes, m.op,
        (x: ResourceClass) => Canonical(x.code) == Canonical(TextOf(r, "code")),
        ResourceClass(TextOf(b, "code"), TextOf(b, "name"), TextOf(b, "plural"), TextOf(b, "slug"), ListOf(b, "aliases"), ListOf(b, "keywords"), NumberOf(b, "order"), b.active),
        (x: ResourceClass, on: bool) => x.(active := on),
        if out.Ok? then Ok(out.value.classes) else Err(out.error))
  {
    hide Acts, Mutated, MutateDefinitions, MutateBindings, Canonical, CanonicalAttribute, CanonicalOptionSet, TextOf, RefOf, FlagOf, NumberOf, ListOf;
    var r, b := m.record, Written(m);
    MutatedActs(c.classes, m.op, ClassMatcher(r), (x: ResourceClass) => Canonical(x.code) == Canonical(TextOf(r, "code")),
      ClassFrom(b), ClassWithActive, (x: ResourceClass, on: bool) => x.(active := on));
  }

  lemma FamilyMutation(c: ResourceCatalog, m: CatalogMutation)
    requires m.record.kind == KindFamily
    ensures var r, b, out := m.record, Written(m), ApplyCatalogMutation(c, m);
      && (out.Ok? ==> out.value == c.(families := out.value.families))
      && Acts(c.families, m.op,
        (x: ResourceFamily) => Canonical(x.classCode) == Canonical(RefOf(r, "class")) && Canonical(x.code) == Canonical(TextOf(r, "code")),
        ResourceFamily(RefOf(b, "class"), TextOf(b, "code"), TextOf(b, "name"), b.active),
        (x: ResourceFamily, on: bool) => x.(active := on),
        if out.Ok? then Ok(out.value.families) else Err(out.error))
  {
    hide Acts, Mutated, MutateDefinitions, MutateBindings, Canonical, CanonicalAttribute, CanonicalOptionSet, TextOf, RefOf, FlagOf, NumberOf, ListOf;
    var r, b := m.record, Written(m);
    MutatedActs(c.families, m.op, FamilyMatcher(r), (x: ResourceFamily) => Canonical(x.classCode) == Canonical(RefOf(r, "class")) && Canonical(x.code) == Canonical(TextOf(r, "code")),
      FamilyFrom(b), FamilyWithActive, (x: ResourceFamily, on: bool) => x.(active := on));
  }

  lemma TypeMutation(c: ResourceCatalog, m: CatalogMutation)
    requires m.record.kind == KindType
    ensures var r, b, out := m.record, Written(m), ApplyCatalogMutation(c, m);
      && (out.Ok? ==> out.value == c.(types := out.value.types))
      && Acts(c.types, m.op,
        (x: ResourceType) => Canonical(x.classCode) == Canonical(RefOf(r, "class")) && Canonical(x.familyCode) == Canonical(RefOf(r, "family")) &&
          Canonical(x.code) == Canonical(TextOf(r, "code")),
        ResourceType(RefOf(b, "class"), RefOf(b, "family"), TextOf(b, "code"), TextOf(b, "name"), b.active),
        (x: ResourceType, on: bool) => x.(active := on),
        if out.Ok? then Ok(out.value.types) else Err(out.error))
  {
    hide Acts, Mutated, MutateDefinitions, MutateBindings, Canonical, CanonicalAttribute, CanonicalOptionSet, TextOf, RefOf, FlagOf, NumberOf, ListOf;
    var r, b := m.record, Written(m);
    MutatedActs(c.types, m.op, TypeMatcher(r), (x: ResourceType) => Canonical(x.classCode) == Canonical(RefOf(r, "class")) && Canonical(x.familyCode) == Canonical(RefOf(r, "family")) &&
          Canonical(x.code) == Canonical(TextOf(r, "code")),
      TypeFrom(b), TypeWithActive, (x: ResourceType, on: bool) => x.(active := on));
  }

  lemma OptionSetMutation(c: ResourceCatalog, m: CatalogMutation)
    requires m.record.kind == KindOptionSet
    ensures var r, b, out := m.record, Written(m), ApplyCatalogMutation(c, m);
      && (out.Ok? ==> out.value == c.(optionSets := out.value.optionSets))
      && Acts(c.optionSets, m.op,
        (x: ResourceOptionSet) => CanonicalOptionSet(x.code) == CanonicalOptionSet(TextOf(r, "code")),
        ResourceOptionSet(TextOf(b, "code"), TextOf(b, "name"), b.active),
        (x: ResourceOptionSet, on: bool) => x.(active := on),
        if out.Ok? then Ok(out.value.optionSets) else Err(out.error))
  {
    hide Acts, Mutated, MutateDefinitions, MutateBindings, Canonical, CanonicalAttribute, CanonicalOptionSet, TextOf, RefOf, FlagOf, NumberOf, ListOf;
    var r, b := m.record, Written(m);
    MutatedActs(c.optionSets, m.op, OptionSetMatcher(r), (x: ResourceOptionSet) => CanonicalOptionSet(x.code) == CanonicalOptionSet(TextOf(r, "code")),
      OptionSetFrom(b), OptionSetWithActive, (x: ResourceOptionSet, on: bool) => x.(active := on));
  }

  lemma OptionMutation(c: ResourceCatalog, m: CatalogMutation)
    requires m.record.kind == KindOption
    ensures var r, b, out := m.record, Written(m), ApplyCatalogMutation(c, m);
      && (out.Ok? ==> out.value == c.(options := out.value.options))
      && Acts(c.options, m.op,
        (x: AttributeOption) => CanonicalOptionSet(x.optionSet) == CanonicalOptionSet(RefOf(r, "optionSet")) &&
          CanonicalAttribute(x.attributeCode) == CanonicalAttribute(RefOf(r, "characteristic")) && Canonical(x.code) == Canonical(TextOf(r, "code")),
        AttributeOption(RefOf(b, "optionSet"), RefOf(b, "characteristic"), TextOf(b, "code"), TextOf(b, "label"), b.active),
        (x: AttributeOption, on: bool) => x.(active := on),
        if out.Ok? then Ok(out.value.options) else Err(out.error))
  {
    hide Acts, Mutated, MutateDefinitions, MutateBindings, Canonical, CanonicalAttribute, CanonicalOptionSet, TextOf, RefOf, FlagOf, NumberOf, ListOf;
    var r, b := m.record, Written(m);
    MutatedActs(c.options, m.op, OptionMatcher(r), (x: AttributeOption) => CanonicalOptionSet(x.optionSet) == CanonicalOptionSet(RefOf(r, "optionSet")) &&
          CanonicalAttribute(x.attributeCode) == CanonicalAttribute(RefOf(r, "characteristic")) && Canonical(x.code) == Canonical(TextOf(r, "code")),
      OptionFrom(b), OptionWithActive, (x: AttributeOption, on: bool) => x.(active := on));
  }

  lemma RelationMutation(c: ResourceCatalog, m: CatalogMutation)
    requires m.record.kind == KindOptionRelation
    ensures var r, b, out := m.record, Written(m), ApplyCatalogMutation(c, m);
      && (out.Ok? ==> out.value == c.(relations := out.value.relations))
      && Acts(c.relations, m.op,
        (x: AttributeOptionRelation) => CanonicalOptionSet(x.optionSet) == CanonicalOptionSet(RefOf(r, "optionSet")) &&
          Canonical(x.fromOption) == Canonical(RefOf(r, "fromOption")) && Canonical(x.toOption) == Canonical(RefOf(r, "toOption")),
        AttributeOptionRelation(RefOf(b, "optionSet"), RefOf(b, "fromCharacteristic"), RefOf(b, "fromOption"), RefOf(b, "toCharacteristic"), RefOf(b, "toOption"), b.active),
        (x: AttributeOptionRelation, on: bool) => x.(active := on),
        if out.Ok? then Ok(out.value.relations) else Err(out.error))
  {
    hide Acts, Mutated, MutateDefinitions, MutateBindings, Canonical, CanonicalAttribute, CanonicalOptionSet, TextOf, RefOf, FlagOf, NumberOf, ListOf;
    var r, b := m.record, Written(m);
    MutatedActs(c.relations, m.op, RelationMatcher(r), (x: AttributeOptionRelation) => CanonicalOptionSet(x.optionSet) == CanonicalOptionSet(RefOf(r, "optionSet")) &&
          Canonical(x.fromOption) == Canonical(RefOf(r, "fromOption")) && Canonical(x.toOption) == Canonical(RefOf(r, "toOption")),
      RelationFrom(b), RelationWithActive, (x: AttributeOptionRelation, on: bool) => x.(active := on));
  }

  lemma UnitMutation(c: ResourceCatalog, m: CatalogMutation)
    requires m.record.kind == KindUnit
    ensures var r, b, out := m.record, Written(m), ApplyCatalogMutation(c, m);
      && (out.Ok? ==> out.value == c.(units := out.value.units))
      && Acts(c.units, m.op,
        (x: UnitDefinition) => Canonical(x.code) == Canonical(TextOf(r, "code")),
        UnitDefinition(TextOf(b, "code"), TextOf(b, "name"), TextOf(b, "symbol"), TextOf(b, "dimension"), b.active),
        (x: UnitDefinition, on: bool) => x.(active := on),
        if out.Ok? then Ok(out.value.units) else Err(out.error))
  {
    hide Acts, Mutated, MutateDefinitions, MutateBindings, Canonical, CanonicalAttribute, CanonicalOptionSet, TextOf, RefOf, FlagOf, NumberOf, ListOf;
    var r, b := m.record, Written(m);
    MutatedActs(c.units, m.op, UnitMatcher(r), (x: UnitDefinition) => Canonical(x.code) == Canonical(TextOf(r, "code")),
      UnitFrom(b), UnitWithActive, (x: UnitDefinition, on: bool) => x.(active := on));
  }

  lemma UnitPolicyMutation(c: ResourceCatalog, m: CatalogMutation)
    requires m.record.kind == KindUnitPolicy
    ensures var r, b, out := m.record, Written(m), ApplyCatalogMutation(c, m);
      && (out.Ok? ==> out.value == c.(unitPolicies := out.value.unitPolicies))
      && Acts(c.unitPolicies, m.op,
        (x: ResourceUnitPolicy) => Canonical(x.classCode) == Canonical(RefOf(r, "class")) && Canonical(x.familyCode) == Canonical(RefOf(r, "family")) &&
          Canonical(x.unitCode) == Canonical(RefOf(r, "unit")),
        ResourceUnitPolicy(RefOf(b, "class"), RefOf(b, "family"), RefOf(b, "unit"), FlagOf(b, "allowed"), FlagOf(b, "suggested"), b.active),
        (x: ResourceUnitPolicy, on: bool) => x.(active := on),
        if out.Ok? then Ok(out.value.unitPolicies) else Err(out.error))
  {
    hide Acts, Mutated, MutateDefinitions, MutateBindings, Canonical, CanonicalAttribute, CanonicalOptionSet, TextOf, RefOf, FlagOf, NumberOf, ListOf;
    var r, b := m.record, Written(m);
    MutatedActs(c.unitPolicies, m.op, UnitPolicyMatcher(r), (x: ResourceUnitPolicy) => Canonical(x.classCode) == Canonical(RefOf(r, "class")) && Canonical(x.familyCode) == Canonical(RefOf(r, "family")) &&
          Canonical(x.unitCode) == Canonical(RefOf(r, "unit")),
      UnitPolicyFrom(b), UnitPolicyWithActive, (x: ResourceUnitPolicy, on: bool) => x.(active := on));
  }

  lemma PresentationFieldMutation(c: ResourceCatalog, m: CatalogMutation)
    requires m.record.kind == KindPresentationField
    ensures var r, b, out := m.record, Written(m), ApplyCatalogMutation(c, m);
      && (out.Ok? ==> out.value == c.(presentationFields := out.value.presentationFields))
      && Acts(c.presentationFields, m.op,
        (x: PresentationField) => Canonical(x.classCode) == Canonical(RefOf(r, "class")) && Canonical(x.familyCode) == Canonical(RefOf(r, "family")) &&
          Canonical(x.typeCode) == Canonical(RefOf(r, "type")) && CanonicalAttribute(x.attributeCode) == CanonicalAttribute(RefOf(r, "characteristic")),
        PresentationField(RefOf(b, "class"), RefOf(b, "family"), RefOf(b, "type"), RefOf(b, "characteristic"), NumberOf(b, "position"), b.active),
        (x: PresentationField, on: bool) => x.(active := on),
        if out.Ok? then Ok(out.value.presentationFields) else Err(out.error))
  {
    hide Acts, Mutated, MutateDefinitions, MutateBindings, Canonical, CanonicalAttribute, CanonicalOptionSet, TextOf, RefOf, FlagOf, NumberOf, ListOf;
    var r, b := m.record, Written(m);
    MutatedActs(c.presentationFields, m.op, PresentationFieldMatcher(r), (x: PresentationField) => Canonical(x.classCode) == Canonical(RefOf(r, "class")) && Canonical(x.familyCode) == Canonical(RefOf(r, "family")) &&
          Canonical(x.typeCode) == Canonical(RefOf(r, "type")) && CanonicalAttribute(x.attributeCode) == CanonicalAttribute(RefOf(r, "characteristic")),
      PresentationFieldFrom(b), PresentationFieldWithActive, (x: PresentationField, on: bool) => x.(active := on));
  }

  // ----- definitions -----

  /** What happens to the definition embedded in a binding of code `code`: an update under the same code
      replaces it, a switch sets its activity. */
  function Reembedded(a: ResourceAttribute, op: Op, code: string, d: AttributeDefinition): ResourceAttribute {
    if CanonicalAttribute(a.definition.code) != code then a
    else if op == Update && CanonicalAttribute(d.code) == code then a.(definition := d)
    else if op == Deactivate || op == Reactivate then a.(definition := a.definition.(active := op == Reactivate))
    else a
  }

  /** Some binding, option, relation or presentation field names the code. */
  predicate Named(c: ResourceCatalog, code: string) {
    || (exists a :: a in c.attributes && CanonicalAttribute(a.definition.code) == code)
    || (exists o :: o in c.options && CanonicalAttribute(o.attributeCode) == code)
    || (exists r :: r in c.relations && (CanonicalAttribute(r.fromAttribute) == code || CanonicalAttribute(r.toAttribute) == code))
    || (exists f :: f in c.presentationFields && CanonicalAttribute(f.attributeCode) == code)
  }

  function DefinitionOf(b: Record): AttributeDefinition {
    AttributeDefinition(TextOf(b, "code"), TextOf(b, "name"), ParseValueType(TextOf(b, "valueType")), TextOf(b, "dimension"),
      FlagOf(b, "defaultIdentityParticipates"), b.active)
  }

  lemma SwitchedFirst(s: seq<AttributeDefinition>, code: string, i: int, on: bool)
    requires 0 <= i < |s| && CanonicalAttribute(s[i].code) == code && forall j :: 0 <= j < i ==> CanonicalAttribute(s[j].code) != code
    ensures FirstActive(s[i := s[i].(active := on)], code) == on
  {
    hide CanonicalAttribute;
    var next := s[i := s[i].(active := on)];
    FindAt(next, code, i);
  }

  lemma DefinitionChange(c: ResourceCatalog, op: Op, code: string, d: AttributeDefinition)
    requires op == Deactivate || op == Reactivate ==> FirstActive(c.definitions, code) == (op == Reactivate)
    ensures var out := AfterDefinitionChange(c, op, code, d);
      var refused := op == Update && CanonicalAttribute(d.code) != code && Named(c, code);
      && (refused ==> out == Err(CodeImmutable))
      && (!refused ==>
            && out.Ok? && out.value == c.(attributes := out.value.attributes) && |out.value.attributes| == |c.attributes|
            && forall i :: 0 <= i < |c.attributes| ==> out.value.attributes[i] == Reembedded(c.attributes[i], op, code, d))
  {
    hide CanonicalAttribute, FirstActive, Named;
    DefinitionReferenced(c, code);
    if op == Update && CanonicalAttribute(d.code) != code && !Named(c, code) {
      hide DefinitionHasReferences;
    }
  }

  lemma DefinitionReferenced(c: ResourceCatalog, code: string)
    ensures DefinitionHasReferences(c, code) <==> Named(c, code)
  {
    hide CanonicalAttribute;
  }

  /** A definition is inserted, replaced, removed or switched like any element, and the bindings of its code
      follow; a used code cannot be changed. */
  lemma DefinitionMutation(c: ResourceCatalog, m: CatalogMutation)
    requires m.record.kind == KindDefinition
    ensures var r, b, out := m.record, Written(m), ApplyCatalogMutation(c, m);
      var code := CanonicalAttribute(TextOf(r, "code"));
      var same := (x: AttributeDefinition) => CanonicalAttribute(x.code) == CanonicalAttribute(TextOf(r, "code"));
      var next := Mutated(c.definitions, m.op, same, DefinitionOf(b), (x: AttributeDefinition, on: bool) => x.(active := on));
      && Acts(c.definitions, m.op, same, DefinitionOf(b), (x: AttributeDefinition, on: bool) => x.(active := on), next)
      && (next.Err? ==> out == Err(next.error))
      && (next.Ok? && m.op == Update && CanonicalAttribute(TextOf(b, "code")) != code && Named(c, code) ==> out == Err(CodeImmutable))
      && (next.Ok? && !(m.op == Update && CanonicalAttribute(TextOf(b, "code")) != code && Named(c, code)) ==>
            && out.Ok? && out.value == c.(definitions := next.value, attributes := out.value.attributes)
            && |out.value.attributes| == |c.attributes|
            && forall i :: 0 <= i < |c.attributes| ==> out.value.attributes[i] == Reembedded(c.attributes[i], m.op, code, DefinitionOf(b)))
  {
    DefinitionSlice(c.definitions, m.op, m.record, Written(m));
    hide Acts, Mutated, AfterDefinitionChange, CanonicalAttribute, TextOf, FlagOf, FirstActive, Named, ParseValueType;
    var next := Mutated(c.definitions, m.op, DefinitionMatcher(m.record), DefinitionFrom(Written(m)), DefinitionWithActive);
    if next.Ok? {
      DefinitionChange(c.(definitions := next.value), m.op, CanonicalAttribute(TextOf(m.record, "code")), DefinitionOf(Written(m)));
      SameNames(c, c.(definitions := next.value), CanonicalAttribute(TextOf(m.record, "code")));
    }
  }

  lemma SameNames(c: ResourceCatalog, d: ResourceCatalog, code: string)
    requires d == c.(definitions := d.definitions)
    ensures Named(c, code) <==> Named(d, code)
  {
    hide CanonicalAttribute;
  }

  lemma DefinitionSlice(s: seq<AttributeDefinition>, op: Op, r: Record, b: Record)
    ensures var code := CanonicalAttribute(TextOf(r, "code"));
      var same := (x: AttributeDefinition) => CanonicalAttribute(x.code) == CanonicalAttribute(TextOf(r, "code"));
      var setOn := (x: AttributeDefinition, on: bool) => x.(active := on);
      var next := Mutated(s, op, DefinitionMatcher(r), DefinitionFrom(b), DefinitionWithActive);
      && next == Mutated(s, op, same, DefinitionOf(b), setOn) && Acts(s, op, same, DefinitionOf(b), setOn, next)
      && (next.Ok? && (op == Deactivate || op == Reactivate) ==> FirstActive(next.value, code) == (op == Reactivate))
  {
    hide CanonicalAttribute, TextOf, FlagOf, ParseValueType, FirstActive;
    var code := CanonicalAttribute(TextOf(r, "code"));
    var same := (x: AttributeDefinition) => CanonicalAttribute(x.code) == CanonicalAttribute(TextOf(r, "code"));
    var setOn := (x: AttributeDefinition, on: bool) => x.(active := on);
    MutatedActs(s, op, DefinitionMatcher(r), same, DefinitionFrom(b), DefinitionWithActive, setOn);
    SameIndex(s, DefinitionMatcher(r), same);
    hide IndexOf;
    var i := IndexOf(s, DefinitionMatcher(r));
    if i >= 0 && (op == Deactivate || op == Reactivate) { SwitchedFirst(s, code, i, op == Reactivate); }
  }

  lemma {:induction false} SameIndex<T(!new)>(s: seq<T>, f: T -> bool, g: T -> bool)
    requires forall x :: f(x) <==> g(x)
    ensures IndexOf(s, f) == IndexOf(s, g)
  {
    if s != [] { SameIndex(s[1..], f, g); }
  }

  // ----- bindings -----

  /** The reference is of the stated kind, if a kind is stated. */
  predicate RefersTo(r: Record, field: string, kind: Kind) {
    field in r.values && r.values[field].refKind.Some? ==> r.values[field].refKind == Some(kind)
  }

  predicate Defined(c: ResourceCatalog, code: string) {
    exists d :: d in c.definitions && CanonicalAttribute(d.code) == CanonicalAttribute(code)
  }

  /** Family and class exist, the type does if one is named, the characteristic is defined, the option set
      exists if one is named, rules are stated exactly for the conditional mode, and each is complete and
      about a defined characteristic. */
  predicate WellFormedBinding(c: ResourceCatalog, b: Record) {
    && b.rules.Some?
    && RefersTo(b, "class", KindClass) && RefersTo(b, "family", KindFamily) && RefersTo(b, "type", KindType)
    && RefersTo(b, "characteristic", KindDefinition) && RefersTo(b, "optionSet", KindOptionSet)
    && RefOf(b, "class") != "" && RefOf(b, "family") != "" && RefOf(b, "characteristic") != ""
    && (exists f :: f in c.families && Canonical(f.classCode) == Canonical(RefOf(b, "class")) && Canonical(f.code) == Canonical(RefOf(b, "family")))
    && (RefOf(b, "type") != "" ==>
          exists t :: t in c.types && Canonical(t.classCode) == Canonical(RefOf(b, "class")) && Canonical(t.familyCode) == Canonical(RefOf(b, "family")) &&
            Canonical(t.code) == Canonical(RefOf(b, "type")))
    && Defined(c, RefOf(b, "characteristic"))
    && (RefOf(b, "optionSet") != "" ==>
          || (exists t :: t in c.optionSets && CanonicalOptionSet(t.code) == CanonicalOptionSet(RefOf(b, "optionSet")))
          || (exists o :: o in c.options && CanonicalOptionSet(o.optionSet) == CanonicalOptionSet(RefOf(b, "optionSet"))))
    && TextOf(b, "mode") in {"REQUIRED", "OPTIONAL", "CONDITIONAL", "FORBIDDEN"}
    && (TextOf(b, "mode") == "CONDITIONAL" <==> b.rules.value != [])
    && forall r :: r in b.rules.value ==>
         CanonicalAttribute(r.whenAttribute) != "" && Canonical(r.whenEquals) != "" && !r.mode.OtherMode? && Defined(c, r.whenAttribute)
  }

  lemma {:induction false} DefinedMeans(definitions: seq<AttributeDefinition>, code: string)
    ensures FindDefinition(definitions, code).Some? <==> exists d :: d in definitions && CanonicalAttribute(d.code) == code
  {
    hide CanonicalAttribute;
    if definitions != [] {
      DefinedMeans(definitions[1..], code);
      assert definitions == [definitions[0]] + definitions[1..];
    }
  }

  lemma {:induction false} RulesMean(c: ResourceCatalog, rules: seq<AttributeRule>)
    ensures RulesError(c, rules) == None <==> forall r :: r in rules ==>
      CanonicalAttribute(r.whenAttribute) != "" && Canonical(r.whenEquals) != "" && !r.mode.OtherMode? && Defined(c, r.whenAttribute)
  {
    hide CanonicalAttribute, Canonical, FindDefinition;
    if rules != [] {
      DefinedMeans(c.definitions, CanonicalAttribute(rules[0].whenAttribute));
      RulesMean(c, rules[1..]);
      assert rules == [rules[0]] + rules[1..];
      hide Defined;
    }
  }

  lemma ModeStated(s: string)
    ensures !ParseMode(s).OtherMode? <==> s in {"REQUIRED", "OPTIONAL", "CONDITIONAL", "FORBIDDEN"}
    ensures ParseMode(s) == Conditional <==> s == "CONDITIONAL"
  {}

  /** A binding record is accepted exactly when it is well formed. */
  lemma ApplicabilityMeans(c: ResourceCatalog, b: Record)
    ensures ApplicabilityError(c, b) == None <==> WellFormedBinding(c, b)
  {
    hide CanonicalAttribute, Canonical, CanonicalOptionSet, FindDefinition, TextOf, RefOf, ParseMode, RulesError;
    ModeStated(TextOf(b, "mode"));
    DefinedMeans(c.definitions, CanonicalAttribute(RefOf(b, "characteristic")));
    if b.rules.Some? { RulesMean(c, b.rules.value); }
    assert HasFamilyIn(c, RefOf(b, "class"), RefOf(b, "family")) <==>
      exists f :: f in c.families && Canonical(f.classCode) == Canonical(RefOf(b, "class")) && Canonical(f.code) == Canonical(RefOf(b, "family"));
    hide HasFamilyIn;
  }

  /** The definition a new binding embeds: the first of its characteristic. */
  predicate Embeds(c: ResourceCatalog, code: string, d: AttributeDefinition) {
    exists i :: 0 <= i < |c.definitions| && c.definitions[i] == d && CanonicalAttribute(d.code) == CanonicalAttribute(code) &&
      forall j :: 0 <= j < i ==> CanonicalAttribute(c.definitions[j].code) != CanonicalAttribute(code)
  }

  function BindingOf(b: Record, d: AttributeDefinition): ResourceAttribute {
    ResourceAttribute(RefOf(b, "class"), RefOf(b, "family"), RefOf(b, "type"), RefOf(b, "optionSet"), d, ParseMode(TextOf(b, "mode")),
      FlagOf(b, "identityParticipates"), if b.rules.Some? then b.rules.value else [], b.active)
  }

  lemma EmbeddedFirst(c: ResourceCatalog, b: Record)
    requires Defined(c, RefOf(b, "characteristic"))
    ensures BindingFrom(c, b) == BindingOf(b, BindingFrom(c, b).definition) && Embeds(c, RefOf(b, "characteristic"), BindingFrom(c, b).definition)
  {
    hide CanonicalAttribute, FindDefinition, TextOf, RefOf, FlagOf, ParseMode;
    var code := CanonicalAttribute(RefOf(b, "characteristic"));
    DefinedMeans(c.definitions, code);
    var i := FoundAt(c.definitions, code);
    FindAt(c.definitions, code, i);
  }

  /** A malformed binding is neither inserted nor updated; otherwise a binding is inserted, replaced, removed
      or switched like any element, embedding the first definition of its characteristic. */
  lemma BindingMutation(c: ResourceCatalog, m: CatalogMutation)
    requires m.record.kind == KindBinding
    ensures var r, b, out := m.record, Written(m), ApplyCatalogMutation(c, m);
      var writes := m.op == Insert || m.op == Update;
      && (writes && !WellFormedBinding(c, b) ==> out.Err?)
      && (!(writes && !WellFormedBinding(c, b)) ==>
            && (out.Ok? ==> out.value == c.(attributes := out.value.attributes))
            && exists d :: (writes ==> Embeds(c, RefOf(b, "characteristic"), d)) &&
                 Acts(c.attributes, m.op,
                   (x: ResourceAttribute) => Canonical(x.classCode) == Canonical(RefOf(r, "class")) && Canonical(x.familyCode) == Canonical(RefOf(r, "family")) &&
                     Canonical(x.typeCode) == Canonical(RefOf(r, "type")) && CanonicalAttribute(x.definition.code) == CanonicalAttribute(RefOf(r, "characteristic")),
                   BindingOf(b, d), (x: ResourceAttribute, on: bool) => x.(active := on),
                   if out.Ok? then Ok(out.value.attributes) else Err(out.error)))
  {
    hide Acts, Mutated, ApplicabilityError, WellFormedBinding, Canonical, CanonicalAttribute, TextOf, RefOf, FlagOf, BindingFrom, Embeds, ParseMode;
    var r, b := m.record, Written(m);
    var d := BindingFrom(c, b).definition;
    ApplicabilityMeans(c, b);
    BindingFields(c, b);
    if WellFormedBinding(c, b) {
      WellFormedIsDefined(c, b);
      EmbeddedFirst(c, b);
    }
    MutatedActs(c.attributes, m.op, BindingMatcher(r),
      (x: ResourceAttribute) => Canonical(x.classCode) == Canonical(RefOf(r, "class")) && Canonical(x.familyCode) == Canonical(RefOf(r, "family")) &&
        Canonical(x.typeCode) == Canonical(RefOf(r, "type")) && CanonicalAttribute(x.definition.code) == CanonicalAttribute(RefOf(r, "characteristic")),
      BindingFrom(c, b), BindingWithActive, (x: ResourceAttribute, on: bool) => x.(active := on));
  }

  lemma BindingFields(c: ResourceCatalog, b: Record)
    ensures BindingFrom(c, b) == BindingOf(b, BindingFrom(c, b).definition)
  {
    hide TextOf, RefOf, FlagOf, ParseMode, DefinitionFor;
  }

  lemma WellFormedIsDefined(c: ResourceCatalog, b: Record)
    requires WellFormedBinding(c, b)
    ensures Defined(c, RefOf(b, "characteristic"))
  {}
}

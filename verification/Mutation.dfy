/** The copy-on-write mutation engine over the eleven catalog kinds. */
module Mutation {
  import opened Text
  import opened Sorting
  import opened Catalog
  import opened Resource
  import opened Validation

  datatype Kind =
    | KindClass | KindFamily | KindType | KindDefinition | KindOptionSet | KindOption | KindOptionRelation
    | KindUnit | KindUnitPolicy | KindBinding | KindPresentationField | KindOther(name: string)

  /** One field of a record; a reference of unstated kind has none. */
  datatype FieldValue = FieldValue(
    text: string, flag: bool, number: int, list: seq<string>, refCode: string, refKind: Option<Kind>)

  /** `rules` is absent for a nil slice. */
  datatype Record = Record(
    kind: Kind, id: int, revision: nat, active: bool,
    values: map<string, FieldValue>, rules: Option<seq<AttributeRule>>)

  datatype Op = Insert | Update | Deactivate | Reactivate | Delete | OtherOp

  datatype CatalogMutation = CatalogMutation(op: Op, record: Record, replacement: Option<Record>)

  function TextOf(rec: Record, name: string): string { if name in rec.values then rec.values[name].text else "" }
  function FlagOf(rec: Record, name: string): bool { name in rec.values && rec.values[name].flag }
  function NumberOf(rec: Record, name: string): int { if name in rec.values then rec.values[name].number else 0 }
  function ListOf(rec: Record, name: string): seq<string> { if name in rec.values then rec.values[name].list else [] }
  function RefOf(rec: Record, name: string): string { if name in rec.values then rec.values[name].refCode else "" }

  function ParseValueType(s: string): ValueType {
    if s == "CONTROLLED_OPTION" then ControlledOption else if s == "INTEGER" then IntegerType
    else if s == "DECIMAL" then DecimalType else if s == "QUANTITY" then QuantityType
    else if s == "BOOLEAN" then BooleanType else if s == "CONTROLLED_TEXT" then ControlledText else OtherType(s)
  }

  function ParseMode(s: string): Mode {
    if s == "REQUIRED" then Required else if s == "OPTIONAL" then Optional
    else if s == "CONDITIONAL" then Conditional else if s == "FORBIDDEN" then Forbidden else OtherMode(s)
  }

  // ----- records to catalog elements -----

  function ClassFrom(r: Record): ResourceClass {
    ResourceClass(TextOf(r, "code"), TextOf(r, "name"), TextOf(r, "plural"), TextOf(r, "slug"),
      ListOf(r, "aliases"), ListOf(r, "keywords"), NumberOf(r, "order"), r.active)
  }

  function FamilyFrom(r: Record): ResourceFamily {
    ResourceFamily(RefOf(r, "class"), TextOf(r, "code"), TextOf(r, "name"), r.active)
  }

  function TypeFrom(r: Record): ResourceType {
    ResourceType(RefOf(r, "class"), RefOf(r, "family"), TextOf(r, "code"), TextOf(r, "name"), r.active)
  }

  function DefinitionFrom(r: Record): AttributeDefinition {
    AttributeDefinition(TextOf(r, "code"), TextOf(r, "name"), ParseValueType(TextOf(r, "valueType")), TextOf(r, "dimension"),
      FlagOf(r, "defaultIdentityParticipates"), r.active)
  }

  function OptionSetFrom(r: Record): ResourceOptionSet {
    ResourceOptionSet(TextOf(r, "code"), TextOf(r, "name"), r.active)
  }

  function OptionFrom(r: Record): AttributeOption {
    AttributeOption(RefOf(r, "optionSet"), RefOf(r, "characteristic"), TextOf(r, "code"), TextOf(r, "label"), r.active)
  }

  function RelationFrom(r: Record): AttributeOptionRelation {
    AttributeOptionRelation(RefOf(r, "optionSet"), RefOf(r, "fromCharacteristic"), RefOf(r, "fromOption"),
      RefOf(r, "toCharacteristic"), RefOf(r, "toOption"), r.active)
  }

  function UnitFrom(r: Record): UnitDefinition {
    UnitDefinition(TextOf(r, "code"), TextOf(r, "name"), TextOf(r, "symbol"), TextOf(r, "dimension"), r.active)
  }

  function UnitPolicyFrom(r: Record): ResourceUnitPolicy {
    ResourceUnitPolicy(RefOf(r, "class"), RefOf(r, "family"), RefOf(r, "unit"), FlagOf(r, "allowed"), FlagOf(r, "suggested"), r.active)
  }

  function PresentationFieldFrom(r: Record): PresentationField {
    PresentationField(RefOf(r, "class"), RefOf(r, "family"), RefOf(r, "type"), RefOf(r, "characteristic"), NumberOf(r, "position"), r.active)
  }

  const NO_DEFINITION := AttributeDefinition("", "", OtherType(""), "", false, false)

  function DefinitionFor(c: ResourceCatalog, code: string): AttributeDefinition {
    match FindDefinition(c.definitions, CanonicalAttribute(code))
    case Some(d) => d
    case None => NO_DEFINITION
  }

  /** A binding embeds the full definition its record refers to. */
  function BindingFrom(c: ResourceCatalog, r: Record): ResourceAttribute {
    ResourceAttribute(RefOf(r, "class"), RefOf(r, "family"), RefOf(r, "type"), RefOf(r, "optionSet"),
      DefinitionFor(c, RefOf(r, "characteristic")), ParseMode(TextOf(r, "mode")), FlagOf(r, "identityParticipates"),
      if r.rules.Some? then r.rules.value else [], r.active)
  }

  // ----- identity of an element -----

  function ClassMatcher(r: Record): ResourceClass -> bool {
    (v: ResourceClass) => Canonical(v.code) == Canonical(TextOf(r, "code"))
  }

  function FamilyMatcher(r: Record): ResourceFamily -> bool {
    (v: ResourceFamily) => FamilyIs(v, RefOf(r, "class"), TextOf(r, "code"))
  }

  function TypeMatcher(r: Record): ResourceType -> bool {
    (v: ResourceType) => TypeIs(v, RefOf(r, "class"), RefOf(r, "family"), TextOf(r, "code"))
  }

  function DefinitionMatcher(r: Record): AttributeDefinition -> bool {
    (v: AttributeDefinition) => CanonicalAttribute(v.code) == CanonicalAttribute(TextOf(r, "code"))
  }

  function OptionSetMatcher(r: Record): ResourceOptionSet -> bool {
    (v: ResourceOptionSet) => CanonicalOptionSet(v.code) == CanonicalOptionSet(TextOf(r, "code"))
  }

  function OptionMatcher(r: Record): AttributeOption -> bool {
    (v: AttributeOption) => CanonicalOptionSet(v.optionSet) == CanonicalOptionSet(RefOf(r, "optionSet")) &&
      CanonicalAttribute(v.attributeCode) == CanonicalAttribute(RefOf(r, "characteristic")) &&
      Canonical(v.code) == Canonical(TextOf(r, "code"))
  }

  function RelationMatcher(r: Record): AttributeOptionRelation -> bool {
    (v: AttributeOptionRelation) => CanonicalOptionSet(v.optionSet) == CanonicalOptionSet(RefOf(r, "optionSet")) &&
      Canonical(v.fromOption) == Canonical(RefOf(r, "fromOption")) && Canonical(v.toOption) == Canonical(RefOf(r, "toOption"))
  }

  function UnitMatcher(r: Record): UnitDefinition -> bool {
    (v: UnitDefinition) => Canonical(v.code) == Canonical(TextOf(r, "code"))
  }

  function UnitPolicyMatcher(r: Record): ResourceUnitPolicy -> bool {
    (v: ResourceUnitPolicy) => Canonical(v.classCode) == Canonical(RefOf(r, "class")) &&
      Canonical(v.familyCode) == Canonical(RefOf(r, "family")) && Canonical(v.unitCode) == Canonical(RefOf(r, "unit"))
  }

  function BindingMatcher(r: Record): ResourceAttribute -> bool {
    (v: ResourceAttribute) => Canonical(v.classCode) == Canonical(RefOf(r, "class")) &&
      Canonical(v.familyCode) == Canonical(RefOf(r, "family")) && Canonical(v.typeCode) == Canonical(RefOf(r, "type")) &&
      BindingCode(v) == CanonicalAttribute(RefOf(r, "characteristic"))
  }

  function PresentationFieldMatcher(r: Record): PresentationField -> bool {
    (v: PresentationField) => Canonical(v.classCode) == Canonical(RefOf(r, "class")) &&
      Canonical(v.familyCode) == Canonical(RefOf(r, "family")) && Canonical(v.typeCode) == Canonical(RefOf(r, "type")) &&
      CanonicalAttribute(v.attributeCode) == CanonicalAttribute(RefOf(r, "characteristic"))
  }

  // ----- the slice engine -----

  function IndexOf<T>(s: seq<T>, matches: T -> bool): (i: int)
    ensures -1 <= i < |s|
    ensures i >= 0 ==> matches(s[i]) && forall j :: 0 <= j < i ==> !matches(s[j])
    ensures i < 0 ==> forall j :: 0 <= j < |s| ==> !matches(s[j])
  {
    if s == [] then -1
    else if matches(s[0]) then 0
    else var i := IndexOf(s[1..], matches); if i < 0 then -1 else i + 1
  }

  function Mutated<T>(s: seq<T>, op: Op, matches: T -> bool, built: T, withActive: (T, bool) -> T): Result<seq<T>> {
    var i := IndexOf(s, matches);
    match op
    case Insert => Ok(s + [built])
    case Update => if i < 0 then Err(NotFound) else Ok(s[i := built])
    case Deactivate => if i < 0 then Err(NotFound) else Ok(s[i := withActive(s[i], false)])
    case Reactivate => if i < 0 then Err(NotFound) else Ok(s[i := withActive(s[i], true)])
    case Delete => if i < 0 then Err(NotFound) else Ok(s[..i] + s[i + 1..])
    case OtherOp => Err(OpUnknown)
  }

  /** Every branch works on a fresh copy and leaves the given slice alone. */
  method MutateSlice<T>(s: array<T>, op: Op, matches: T -> bool, built: T, withActive: (T, bool) -> T) returns (r: Result<seq<T>>)
    ensures r == Mutated(s[..], op, matches, built, withActive)
    ensures s[..] == old(s[..])
  {
    if op == Insert { return Ok(s[..] + [built]); }
    if op == OtherOp { return Err(OpUnknown); }
    var i := 0;
    while i < s.Length && !matches(s[i])
      invariant 0 <= i <= s.Length && forall j :: 0 <= j < i ==> !matches(s[j])
    {
      i := i + 1;
    }
    if i == s.Length { return Err(NotFound); }
    if op == Delete { return Ok(s[..i] + s[i + 1..]); }
    var next := new T[s.Length](j requires 0 <= j < s.Length reads s => s[j]);
    next[i] := if op == Update then built else withActive(next[i], op == Reactivate);
    assert next[..] == s[..][i := next[i]];
    return Ok(next[..]);
  }

  // ----- embedded definitions -----

  function WithDefinition(a: ResourceAttribute, code: string, d: AttributeDefinition): ResourceAttribute {
    if BindingCode(a) == code then a.(definition := d) else a
  }

  function Embed(attributes: seq<ResourceAttribute>, code: string, d: AttributeDefinition): (r: seq<ResourceAttribute>)
    ensures |r| == |attributes| && forall i :: 0 <= i < |r| ==> r[i] == WithDefinition(attributes[i], code, d)
  {
    seq(|attributes|, i requires 0 <= i < |attributes| => WithDefinition(attributes[i], code, d))
  }

  function WithDefinitionActive(a: ResourceAttribute, code: string, active: bool): ResourceAttribute {
    if BindingCode(a) == code then a.(definition := a.definition.(active := active)) else a
  }

  function EmbedActive(attributes: seq<ResourceAttribute>, code: string, active: bool): (r: seq<ResourceAttribute>)
    ensures |r| == |attributes| && forall i :: 0 <= i < |r| ==> r[i] == WithDefinitionActive(attributes[i], code, active)
  {
    seq(|attributes|, i requires 0 <= i < |attributes| => WithDefinitionActive(attributes[i], code, active))
  }

  function FirstActive(definitions: seq<AttributeDefinition>, code: string): bool {
    var d := FindDefinition(definitions, code);
    d.Some? && d.value.active
  }

  /** synchronizeEmbeddedDefinitionActive, in place. */
  method SynchronizeEmbeddedActive(definitions: seq<AttributeDefinition>, attributes: array<ResourceAttribute>, code: string)
    modifies attributes
    ensures attributes[..] == EmbedActive(old(attributes[..]), code, FirstActive(definitions, code))
  {
    hide CanonicalAttribute;
    var active := false;
    for i := 0 to |definitions|
      invariant !active && FindDefinition(definitions, code) == FindDefinition(definitions[i..], code)
    {
      assert definitions[i..][0] == definitions[i] && definitions[i..][1..] == definitions[i + 1..];
      if CanonicalAttribute(definitions[i].code) == code {
        active := definitions[i].active;
        break;
      }
    }
    for i := 0 to attributes.Length
      invariant forall j :: 0 <= j < i ==> attributes[j] == WithDefinitionActive(old(attributes[j]), code, active)
      invariant forall j :: i <= j < attributes.Length ==> attributes[j] == old(attributes[j])
    {
      if BindingCode(attributes[i]) == code {
        attributes[i] := attributes[i].(definition := attributes[i].definition.(active := active));
      }
    }
  }

  /** What keeps a definition's code from being changed.  Rule conditions are not among it. */
  predicate DefinitionHasReferences(c: ResourceCatalog, code: string) {
    || (exists a :: a in c.attributes && BindingCode(a) == code)
    || (exists o :: o in c.options && CanonicalAttribute(o.attributeCode) == code)
    || (exists r :: r in c.relations && (CanonicalAttribute(r.fromAttribute) == code || CanonicalAttribute(r.toAttribute) == code))
    || (exists f :: f in c.presentationFields && CanonicalAttribute(f.attributeCode) == code)
  }

  function AfterDefinitionChange(c: ResourceCatalog, op: Op, code: string, replacement: AttributeDefinition): Result<ResourceCatalog> {
    match op
    case Update =>
      if CanonicalAttribute(replacement.code) == code then Ok(c.(attributes := Embed(c.attributes, code, replacement)))
      else if DefinitionHasReferences(c, code) then Err(CodeImmutable)
      else Ok(c)
    case Deactivate => Ok(c.(attributes := EmbedActive(c.attributes, code, FirstActive(c.definitions, code))))
    case Reactivate => Ok(c.(attributes := EmbedActive(c.attributes, code, FirstActive(c.definitions, code))))
    case _ => Ok(c)
  }

  method DefinitionIsReferenced(c: ResourceCatalog, code: string) returns (referenced: bool)
    ensures referenced == DefinitionHasReferences(c, code)
  {
    hide CanonicalAttribute;
    for i := 0 to |c.attributes|
      invariant forall j :: 0 <= j < i ==> BindingCode(c.attributes[j]) != code
    {
      if BindingCode(c.attributes[i]) == code { return true; }
    }
    for i := 0 to |c.options|
      invariant forall j :: 0 <= j < i ==> CanonicalAttribute(c.options[j].attributeCode) != code
    {
      if CanonicalAttribute(c.options[i].attributeCode) == code { return true; }
    }
    for i := 0 to |c.relations|
      invariant forall j :: 0 <= j < i ==>
        CanonicalAttribute(c.relations[j].fromAttribute) != code && CanonicalAttribute(c.relations[j].toAttribute) != code
    {
      if CanonicalAttribute(c.relations[i].fromAttribute) == code || CanonicalAttribute(c.relations[i].toAttribute) == code { return true; }
    }
    for i := 0 to |c.presentationFields|
      invariant forall j :: 0 <= j < i ==> CanonicalAttribute(c.presentationFields[j].attributeCode) != code
    {
      if CanonicalAttribute(c.presentationFields[i].attributeCode) == code { return true; }
    }
    return false;
  }

  /** rebuildEmbeddedDefinitions on the bindings of `c`, in place. */
  method RebuildEmbedded(c: ResourceCatalog, attributes: array<ResourceAttribute>, code: string, d: AttributeDefinition) returns (e: Option<Error>)
    requires attributes[..] == c.attributes
    modifies attributes
    ensures e.None? ==> AfterDefinitionChange(c, Update, code, d) == Ok(c.(attributes := attributes[..]))
    ensures e.Some? ==> AfterDefinitionChange(c, Update, code, d) == Err(e.value) && attributes[..] == c.attributes
  {
    hide CanonicalAttribute, DefinitionHasReferences;
    if CanonicalAttribute(d.code) != code {
      var referenced := DefinitionIsReferenced(c, code);
      return if referenced then Some(CodeImmutable) else None;
    }
    for i := 0 to attributes.Length
      invariant forall j :: 0 <= j < i ==> attributes[j] == WithDefinition(c.attributes[j], code, d)
      invariant forall j :: i <= j < attributes.Length ==> attributes[j] == c.attributes[j]
    {
      if BindingCode(attributes[i]) == code {
        attributes[i] := attributes[i].(definition := d);
      }
    }
    assert attributes[..] == Embed(c.attributes, code, d);
    return None;
  }

  // ----- applicability records -----

  predicate ValidMode(m: Mode) { !m.OtherMode? }

  predicate HasDefinition(c: ResourceCatalog, code: string) {
    FindDefinition(c.definitions, CanonicalAttribute(code)).Some?
  }

  predicate HasCatalogOptionSet(c: ResourceCatalog, code: string) {
    || (exists t :: t in c.optionSets && CanonicalOptionSet(t.code) == CanonicalOptionSet(code))
    || (exists o :: o in c.options && CanonicalOptionSet(o.optionSet) == CanonicalOptionSet(code))
  }

  /** The reference has no stated kind or the right one. */
  predicate RefKindOk(r: Record, field: string, kind: Kind) {
    field in r.values && r.values[field].refKind.Some? ==> r.values[field].refKind.value == kind
  }

  predicate RuleComplete(r: AttributeRule) {
    CanonicalAttribute(r.whenAttribute) != "" && Canonical(r.whenEquals) != "" && ValidMode(r.mode)
  }

  /** validateApplicabilityRecord, check by check. */
  function ApplicabilityError(c: ResourceCatalog, r: Record): Option<Error> {
    var mode := ParseMode(TextOf(r, "mode"));
    if r.rules.None? then Some(Error.Validation)
    else if !RefKindOk(r, "class", KindClass) then Some(Error.Reference)
    else if RefOf(r, "class") == "" then Some(Error.Validation)
    else if !RefKindOk(r, "family", KindFamily) then Some(Error.Reference)
    else if RefOf(r, "family") == "" then Some(Error.Validation)
    else if !HasFamilyIn(c, RefOf(r, "class"), RefOf(r, "family")) then Some(Error.Reference)
    else if !RefKindOk(r, "type", KindType) then Some(Error.Reference)
    else if RefOf(r, "type") != "" && !HasTypeIn(c, RefOf(r, "class"), RefOf(r, "family"), RefOf(r, "type")) then Some(Error.Reference)
    else if !RefKindOk(r, "characteristic", KindDefinition) then Some(Error.Reference)
    else if RefOf(r, "characteristic") == "" then Some(Error.Validation)
    else if !HasDefinition(c, RefOf(r, "characteristic")) then Some(Error.Reference)
    else if !RefKindOk(r, "optionSet", KindOptionSet) then Some(Error.Reference)
    else if RefOf(r, "optionSet") != "" && !HasCatalogOptionSet(c, RefOf(r, "optionSet")) then Some(Error.Reference)
    else if !ValidMode(mode) || (mode == Conditional) != (r.rules.value != []) then Some(Error.Validation)
    else RulesError(c, r.rules.value)
  }

  function RulesError(c: ResourceCatalog, rules: seq<AttributeRule>): Option<Error> {
    if rules == [] then None
    else if !RuleComplete(rules[0]) then Some(Error.Validation)
    else if !HasDefinition(c, rules[0].whenAttribute) then Some(Error.Reference)
    else RulesError(c, rules[1..])
  }

  // ----- applying a mutation -----

  function Lift<T>(r: Result<seq<T>>, f: seq<T> -> ResourceCatalog): Result<ResourceCatalog> {
    if r.Ok? then Ok(f(r.value)) else Err(r.error)
  }

  function ApplyCatalogMutation(c: ResourceCatalog, m: CatalogMutation): Result<ResourceCatalog> {
    var r, op := m.record, m.op;
    var b := if m.replacement.Some? then m.replacement.value else r;
    match r.kind
    case KindClass =>
      Lift(Mutated(c.classes, op, ClassMatcher(r), ClassFrom(b), ClassWithActive), x => c.(classes := x))
    case KindFamily =>
      Lift(Mutated(c.families, op, FamilyMatcher(r), FamilyFrom(b), FamilyWithActive), x => c.(families := x))
    case KindType =>
      Lift(Mutated(c.types, op, TypeMatcher(r), TypeFrom(b), TypeWithActive), x => c.(types := x))
    case KindDefinition => MutateDefinitions(c, op, r, DefinitionFrom(b))
    case KindOptionSet =>
      Lift(Mutated(c.optionSets, op, OptionSetMatcher(r), OptionSetFrom(b), OptionSetWithActive), x => c.(optionSets := x))
    case KindOption =>
      Lift(Mutated(c.options, op, OptionMatcher(r), OptionFrom(b), OptionWithActive), x => c.(options := x))
    case KindOptionRelation =>
      Lift(Mutated(c.relations, op, RelationMatcher(r), RelationFrom(b), RelationWithActive), x => c.(relations := x))
    case KindUnit =>
      Lift(Mutated(c.units, op, UnitMatcher(r), UnitFrom(b), UnitWithActive), x => c.(units := x))
    case KindUnitPolicy =>
      Lift(Mutated(c.unitPolicies, op, UnitPolicyMatcher(r), UnitPolicyFrom(b), UnitPolicyWithActive), x => c.(unitPolicies := x))
    case KindBinding => MutateBindings(c, op, r, b)
    case KindPresentationField =>
      Lift(Mutated(c.presentationFields, op, PresentationFieldMatcher(r), PresentationFieldFrom(b), PresentationFieldWithActive), x => c.(presentationFields := x))
    case KindOther(_) => Err(KindUnknown)
  }

  function ClassWithActive(v: ResourceClass, on: bool): ResourceClass { v.(active := on) }
  function FamilyWithActive(v: ResourceFamily, on: bool): ResourceFamily { v.(active := on) }
  function TypeWithActive(v: ResourceType, on: bool): ResourceType { v.(active := on) }
  function OptionSetWithActive(v: ResourceOptionSet, on: bool): ResourceOptionSet { v.(active := on) }
  function OptionWithActive(v: AttributeOption, on: bool): AttributeOption { v.(active := on) }
  function RelationWithActive(v: AttributeOptionRelation, on: bool): AttributeOptionRelation { v.(active := on) }
  function UnitWithActive(v: UnitDefinition, on: bool): UnitDefinition { v.(active := on) }
  function UnitPolicyWithActive(v: ResourceUnitPolicy, on: bool): ResourceUnitPolicy { v.(active := on) }
  function PresentationFieldWithActive(v: PresentationField, on: bool): PresentationField { v.(active := on) }
  function DefinitionWithActive(v: AttributeDefinition, on: bool): AttributeDefinition { v.(active := on) }
  function BindingWithActive(v: ResourceAttribute, on: bool): ResourceAttribute { v.(active := on) }

  function MutateDefinitions(c: ResourceCatalog, op: Op, r: Record, built: AttributeDefinition): Result<ResourceCatalog> {
    var next := Mutated(c.definitions, op, DefinitionMatcher(r), built, DefinitionWithActive);
    if next.Err? then Err(next.error)
    else AfterDefinitionChange(c.(definitions := next.value), op, CanonicalAttribute(TextOf(r, "code")), built)
  }

  function MutateBindings(c: ResourceCatalog, op: Op, r: Record, b: Record): Result<ResourceCatalog> {
    var error := if op == Insert || op == Update then ApplicabilityError(c, b) else None;
    if error.Some? then Err(error.value)
    else
      var next := Mutated(c.attributes, op, BindingMatcher(r), BindingFrom(c, b), BindingWithActive);
      if next.Err? then Err(next.error) else Ok(c.(attributes := next.value))
  }
}

/** The class/family/type/attribute catalog and its scope and option-set lookups. */
module Catalog {
  import opened Text

  datatype Option<+T> = None | Some(value: T)

  /** Error classes; message text is not modelled. */
  datatype Error =
    | Validation | Reference | NotFound | KindUnknown | OpUnknown | CodeImmutable
    | RevisionConflict | RevisionRequired | InvalidArgument | InvalidLifecycle | InUse | Duplicate
    | Unavailable | WriterLatched | Indeterminate | CandidateMismatch | Integrity | Internal
    | ReactivationImpossible | IdentityConflict
    /** The defects of a whole catalog, by the kinds found. */
    | Defects(references: bool, violations: bool)
    /** The same, classified as an invalid candidate. */
    | InvalidCatalog(references: bool, violations: bool)

  datatype Result<+T> = Ok(value: T) | Err(error: Error)

  /** A Go string type; the last case holds every string that is not one of the constants. */
  datatype ValueType =
    | ControlledOption | IntegerType | DecimalType | QuantityType | BooleanType | ControlledText
    | OtherType(name: string)

  datatype Mode = Required | Optional | Conditional | Forbidden | OtherMode(name: string)

  datatype ResourceClass = ResourceClass(
    code: string, name: string, plural: string, slug: string,
    aliases: seq<string>, keywords: seq<string>, order: int, active: bool)

  datatype ResourceFamily = ResourceFamily(classCode: string, code: string, name: string, active: bool)

  datatype ResourceType = ResourceType(
    classCode: string, familyCode: string, code: string, name: string, active: bool)

  datatype PresentationField = PresentationField(
    classCode: string, familyCode: string, typeCode: string, attributeCode: string,
    position: int, active: bool)

  datatype UnitDefinition = UnitDefinition(
    code: string, name: string, symbol: string, dimension: string, active: bool)

  datatype ResourceUnitPolicy = ResourceUnitPolicy(
    classCode: string, familyCode: string, unitCode: string, allowed: bool, suggested: bool, active: bool)

  datatype AttributeDefinition = AttributeDefinition(
    code: string, name: string, valueType: ValueType, dimension: string,
    defaultIdentityParticipates: bool, active: bool)

  datatype AttributeRule = AttributeRule(
    whenAttribute: string, whenEquals: string, mode: Mode,
    identityParticipates: bool, notApplicable: bool, active: bool)

  datatype ResourceAttribute = ResourceAttribute(
    classCode: string, familyCode: string, typeCode: string, optionSet: string,
    definition: AttributeDefinition, mode: Mode, identityParticipates: bool,
    rules: seq<AttributeRule>, active: bool)

  datatype AttributeOption = AttributeOption(
    optionSet: string, attributeCode: string, code: string, displayLabel: string, active: bool)

  datatype AttributeOptionRelation = AttributeOptionRelation(
    optionSet: string, fromAttribute: string, fromOption: string,
    toAttribute: string, toOption: string, active: bool)

  datatype ResourceOptionSet = ResourceOptionSet(code: string, name: string, active: bool)

  datatype ResourceCatalog = ResourceCatalog(
    classes: seq<ResourceClass>,
    families: seq<ResourceFamily>,
    types: seq<ResourceType>,
    presentationFields: seq<PresentationField>,
    units: seq<UnitDefinition>,
    unitPolicies: seq<ResourceUnitPolicy>,
    definitions: seq<AttributeDefinition>,
    attributes: seq<ResourceAttribute>,
    options: seq<AttributeOption>,
    relations: seq<AttributeOptionRelation>,
    optionSets: seq<ResourceOptionSet>)

  datatype ResourceScope = ResourceScope(classCode: string, familyCode: string, typeCode: string)

  function CanonicalScope(s: ResourceScope): ResourceScope {
    ResourceScope(Canonical(s.classCode), Canonical(s.familyCode), Canonical(s.typeCode))
  }

  lemma CanonicalScopeIdempotent(s: ResourceScope)
    ensures CanonicalScope(CanonicalScope(s)) == CanonicalScope(s)
  {
    CanonicalIdempotent(s.classCode);
    CanonicalIdempotent(s.familyCode);
    CanonicalIdempotent(s.typeCode);
  }

  /** The narrowing predicate every catalog query shares: an empty type code on either side is a
      wildcard. */
  predicate ScopeMatches(s: ResourceScope, classCode: string, familyCode: string, typeCode: string) {
    var scope := CanonicalScope(s);
    var rowType := Canonical(typeCode);
    && scope.classCode == Canonical(classCode)
    && scope.familyCode == Canonical(familyCode)
    && (rowType == "" || scope.typeCode == "" || rowType == scope.typeCode)
  }

  predicate Applies(a: ResourceAttribute, s: ResourceScope) {
    ScopeMatches(s, a.classCode, a.familyCode, a.typeCode)
  }

  const DEFAULT_OPTION_SET := "DEFAULT"

  function CanonicalOptionSet(s: string): string {
    var c := Canonical(s);
    if c == "" then DEFAULT_OPTION_SET else c
  }

  function SetKey(a: ResourceAttribute): string {
    CanonicalOptionSet(a.optionSet)
  }

  /** The key under which a binding is looked up. */
  function BindingCode(a: ResourceAttribute): string {
    CanonicalAttribute(a.definition.code)
  }

  /** The first definition of a code, if any. */
  function FindDefinition(definitions: seq<AttributeDefinition>, code: string): Option<AttributeDefinition> {
    if definitions == [] then None
    else if CanonicalAttribute(definitions[0].code) == code then Some(definitions[0])
    else FindDefinition(definitions[1..], code)
  }
}

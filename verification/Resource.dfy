/** Building a resource against the catalog: the declarative specification of acceptance and of
    the canonical result, and the loops that meet it. */
module Resource {
  import opened Text
  import opened Sorting
  import opened Catalog

  /** A decimal is its sign and its printed form. */
  datatype DecimalValue = DecimalValue(sign: int, printed: string)

  datatype Quantity = Quantity(amount: DecimalValue, unitCode: string)

  datatype AttributeValue = AttributeValue(
    attributeCode: string, typ: ValueType, optionCode: string,
    integer: Option<int>, decimal: Option<DecimalValue>, quantity: Option<Quantity>,
    boolean: Option<bool>, text: string)

  datatype Resource = Resource(
    id: int, classCode: string, familyCode: string, typeCode: string, naturalUnit: string,
    attributes: seq<AttributeValue>, identityKey: string, revision: nat, active: bool)

  function ValueCode(v: AttributeValue): string {
    CanonicalAttribute(v.attributeCode)
  }

  // ----- canonical values -----

  predicate IsOptionOf(o: AttributeOption, code: string, set_: string, raw: string) {
    CanonicalAttribute(o.attributeCode) == code && CanonicalOptionSet(o.optionSet) == set_ && o.code == raw
  }

  predicate HasOption(options: seq<AttributeOption>, code: string, set_: string, raw: string) {
    exists o :: o in options && IsOptionOf(o, code, set_, raw)
  }

  function CanonicalValue(c: ResourceCatalog, a: ResourceAttribute, v: AttributeValue): Result<AttributeValue> {
    var w := v.(attributeCode := ValueCode(v));
    if v.typ != a.definition.valueType then Err(Validation)
    else match v.typ
      case ControlledOption =>
        if HasOption(c.options, BindingCode(a), SetKey(a), v.optionCode) then Ok(w) else Err(Validation)
      case QuantityType =>
        if v.quantity.None? || v.quantity.value.amount.sign <= 0 then Err(Validation)
        else Ok(w.(quantity := Some(v.quantity.value.(unitCode := Canonical(v.quantity.value.unitCode)))))
      case IntegerType => if v.integer.None? then Err(Validation) else Ok(w)
      case DecimalType => if v.decimal.None? then Err(Validation) else Ok(w)
      case BooleanType => if v.boolean.None? then Err(Validation) else Ok(w)
      case ControlledText => if Blank(v.text) then Err(Validation) else Ok(w.(text := Squeeze(v.text)))
      case OtherType(_) => Err(Validation)
  }

  /** The printed form of a canonical value that enters the identity key. */
  function Printed(v: AttributeValue): string {
    match v.typ
    case ControlledOption => v.optionCode
    case QuantityType =>
      if v.quantity.Some? then v.quantity.value.amount.printed + " " + Canonical(v.quantity.value.unitCode) else ""
    case IntegerType => if v.integer.Some? then Integer(v.integer.value) else ""
    case DecimalType => if v.decimal.Some? then v.decimal.value.printed else ""
    case BooleanType => if v.boolean == Some(true) then "true" else "false"
    case _ => Canonical(v.text)
  }

  // ----- the bindings of a scope -----

  /** The bindings that apply to a scope, by code; a later declaration of a code wins. */
  function Bindings(attributes: seq<ResourceAttribute>, s: ResourceScope): map<string, ResourceAttribute> {
    if attributes == [] then map[]
    else
      var a := attributes[|attributes| - 1];
      var before := Bindings(attributes[..|attributes| - 1], s);
      if Applies(a, s) then before[BindingCode(a) := a] else before
  }

  method ResourceAttributes(c: ResourceCatalog, s: ResourceScope) returns (result: map<string, ResourceAttribute>)
    ensures result == Bindings(c.attributes, s)
  {
    result := map[];
    for i := 0 to |c.attributes|
      invariant result == Bindings(c.attributes[..i], s)
    {
      var attribute := c.attributes[i];
      assert c.attributes[..i + 1][..i] == c.attributes[..i];
      if Applies(attribute, s) {
        result := result[BindingCode(attribute) := attribute];
      }
    }
    assert c.attributes[..|c.attributes|] == c.attributes;
  }

  /** `attributes[i]` is the last applicable declaration of `code`. */
  predicate LastDeclared(attributes: seq<ResourceAttribute>, s: ResourceScope, i: int, code: string) {
    && 0 <= i < |attributes| && Applies(attributes[i], s) && BindingCode(attributes[i]) == code
    && forall j :: i < j < |attributes| && Applies(attributes[j], s) ==> BindingCode(attributes[j]) != code
  }

  lemma {:induction false} BindingIsLast(attributes: seq<ResourceAttribute>, s: ResourceScope, code: string) returns (i: int)
    requires code in Bindings(attributes, s)
    ensures LastDeclared(attributes, s, i, code) && Bindings(attributes, s)[code] == attributes[i]
  {
    hide Applies, BindingCode;
    var n := |attributes| - 1;
    if Applies(attributes[n], s) && BindingCode(attributes[n]) == code {
      i := n;
    } else {
      i := BindingIsLast(attributes[..n], s, code);
      assert forall j :: 0 <= j < n ==> attributes[j] == attributes[..n][j];
    }
  }

  lemma {:induction false} LastIsBinding(attributes: seq<ResourceAttribute>, s: ResourceScope, i: int)
    requires 0 <= i < |attributes| && Applies(attributes[i], s)
    ensures BindingCode(attributes[i]) in Bindings(attributes, s)
  {
    if i < |attributes| - 1 {
      LastIsBinding(attributes[..|attributes| - 1], s, i);
    }
  }

  /** The bound codes are those of the applicable declarations, and the last one wins. */
  lemma BindingsCharacterized(attributes: seq<ResourceAttribute>, s: ResourceScope, code: string)
    ensures code in Bindings(attributes, s) <==> exists i :: LastDeclared(attributes, s, i, code)
    ensures forall i :: LastDeclared(attributes, s, i, code) ==> code in Bindings(attributes, s) && Bindings(attributes, s)[code] == attributes[i]
  {
    forall i | LastDeclared(attributes, s, i, code)
      ensures code in Bindings(attributes, s) && Bindings(attributes, s)[code] == attributes[i]
    {
      LastIsBinding(attributes, s, i);
      var j := BindingIsLast(attributes, s, code);
    }
    if code in Bindings(attributes, s) {
      var i := BindingIsLast(attributes, s, code);
    }
  }

  // ----- the supplied values -----

  /** Every value names a bound attribute, none twice, and each has a canonical form. */
  ghost predicate ValuesFit(c: ResourceCatalog, bound: map<string, ResourceAttribute>, values: seq<AttributeValue>) {
    && (forall i, j :: 0 <= i < j < |values| ==> ValueCode(values[i]) != ValueCode(values[j]))
    && (forall v :: v in values ==> ValueCode(v) in bound && CanonicalValue(c, bound[ValueCode(v)], v).Ok?)
  }

  /** The canonical values by code. */
  ghost function ByCode(c: ResourceCatalog, bound: map<string, ResourceAttribute>, values: seq<AttributeValue>):
      map<string, AttributeValue>
    requires ValuesFit(c, bound, values)
  {
    if values == [] then map[]
    else
      var v := values[|values| - 1];
      ByCode(c, bound, values[..|values| - 1])[ValueCode(v) := CanonicalValue(c, bound[ValueCode(v)], v).value]
  }

  /** `ByCode` holds exactly the canonical forms of the values. */
  lemma {:induction false} ByCodeHolds(c: ResourceCatalog, bound: map<string, ResourceAttribute>, values: seq<AttributeValue>)
    requires ValuesFit(c, bound, values)
    ensures forall v :: v in values ==>
      ValueCode(v) in ByCode(c, bound, values) &&
      ByCode(c, bound, values)[ValueCode(v)] == CanonicalValue(c, bound[ValueCode(v)], v).value
    ensures forall code :: code in ByCode(c, bound, values) ==> exists v :: v in values && ValueCode(v) == code
  {
    hide CanonicalValue, ValueCode;
    if values != [] {
      var n := |values| - 1;
      ByCodeHolds(c, bound, values[..n]);
      assert values == values[..n] + [values[n]];
    }
  }

  // ----- the active chain -----

  predicate ActiveSemantics(c: ResourceCatalog) {
    c.optionSets != []
  }

  /** The first unit of that code decides. */
  predicate UnitActive(units: seq<UnitDefinition>, unit: string) {
    if units == [] then false
    else if Canonical(units[0].code) == unit then units[0].active
    else UnitActive(units[1..], unit)
  }

  predicate PolicyFor(p: ResourceUnitPolicy, s: ResourceScope, unit: string) {
    Canonical(p.classCode) == s.classCode && Canonical(p.familyCode) == s.familyCode &&
    Canonical(p.unitCode) == unit && p.allowed
  }

  predicate PolicyActive(policies: seq<ResourceUnitPolicy>, s: ResourceScope, unit: string) {
    if policies == [] then false
    else if PolicyFor(policies[0], s, unit) then policies[0].active
    else PolicyActive(policies[1..], s, unit)
  }

  predicate OptionSetActive(sets: seq<ResourceOptionSet>, set_: string) {
    if sets == [] then false
    else if CanonicalOptionSet(sets[0].code) == set_ then sets[0].active
    else OptionSetActive(sets[1..], set_)
  }

  /** The first option of that code and set decides; an absent one is not held against the value. */
  predicate OptionActive(options: seq<AttributeOption>, code: string, set_: string, raw: string) {
    if options == [] then true
    else if IsOptionOf(options[0], code, set_, raw) then options[0].active
    else OptionActive(options[1..], code, set_, raw)
  }

  predicate DefinitionActive(c: ResourceCatalog, code: string, a: ResourceAttribute) {
    match FindDefinition(c.definitions, code)
    case Some(d) => d.active
    case None => a.definition.active
  }

  predicate BindingActive(c: ResourceCatalog, code: string, a: ResourceAttribute, values: map<string, AttributeValue>) {
    && a.active && DefinitionActive(c, code, a)
    && OptionSetActive(c.optionSets, SetKey(a))
    && (forall r :: r in a.rules ==> r.active)
    && (code in values && values[code].typ == ControlledOption ==>
          OptionActive(c.options, code, SetKey(a), values[code].optionCode))
  }

  /** A relation counts for a scope when both ends are bound to the relation's option set. */
  predicate Relevant(r: AttributeOptionRelation, bound: map<string, ResourceAttribute>) {
    var from, to := CanonicalAttribute(r.fromAttribute), CanonicalAttribute(r.toAttribute);
    && from in bound && to in bound
    && CanonicalOptionSet(r.optionSet) == SetKey(bound[from])
    && CanonicalOptionSet(r.optionSet) == SetKey(bound[to])
  }

  predicate ClassOf(k: ResourceClass, s: ResourceScope) {
    Canonical(k.code) == s.classCode
  }

  predicate FamilyOf(f: ResourceFamily, s: ResourceScope) {
    Canonical(f.classCode) == s.classCode && Canonical(f.code) == s.familyCode
  }

  predicate TypeOf(t: ResourceType, s: ResourceScope) {
    Canonical(t.classCode) == s.classCode && Canonical(t.familyCode) == s.familyCode && Canonical(t.code) == s.typeCode
  }

  ghost predicate ActiveChain(c: ResourceCatalog, s: ResourceScope, unit: string,
      bound: map<string, ResourceAttribute>, values: map<string, AttributeValue>) {
    ActiveSemantics(c) ==>
      && (forall k :: k in c.classes && ClassOf(k, s) ==> k.active)
      && (forall f :: f in c.families && FamilyOf(f, s) ==> f.active)
      && (forall t :: t in c.types && TypeOf(t, s) ==> t.active)
      && UnitActive(c.units, unit)
      && PolicyActive(c.unitPolicies, s, unit)
      && (forall code :: code in bound ==> BindingActive(c, code, bound[code], values))
      && (forall r :: r in c.relations && Relevant(r, bound) ==> r.active)
  }

  // ----- option relations -----

  /** Relations are grouped under this joined key. */
  function GroupKey(r: AttributeOptionRelation): string {
    CanonicalAttribute(r.fromAttribute) + "|" + CanonicalAttribute(r.toAttribute)
  }

  predicate Admits(r: AttributeOptionRelation, from: AttributeValue, to: AttributeValue) {
    from.optionCode == r.fromOption && to.optionCode == r.toOption
  }

  /** A group whose two ends both have values needs a member that admits them. */
  ghost predicate RelationsCohere(relations: seq<AttributeOptionRelation>, bound: map<string, ResourceAttribute>,
      values: map<string, AttributeValue>) {
    forall r :: r in relations && Relevant(r, bound) ==> GroupCoheres(relations, bound, values, GroupKey(r))
  }

  ghost predicate GroupCoheres(relations: seq<AttributeOptionRelation>, bound: map<string, ResourceAttribute>,
      values: map<string, AttributeValue>, key: string) {
    FirstPart(key) in values && SecondPart(key) in values ==>
      exists q :: q in relations && Relevant(q, bound) && GroupKey(q) == key &&
        Admits(q, values[FirstPart(key)], values[SecondPart(key)])
  }

  // ----- modes -----

  datatype Effect = Effect(mode: Mode, participates: bool, notApplicable: bool)

  predicate RuleFires(r: AttributeRule, values: map<string, AttributeValue>) {
    var when_ := CanonicalAttribute(r.whenAttribute);
    when_ in values && values[when_].optionCode == Canonical(r.whenEquals)
  }

  function FirstRule(rules: seq<AttributeRule>, values: map<string, AttributeValue>): Option<AttributeRule> {
    if rules == [] then None
    else if RuleFires(rules[0], values) then Some(rules[0])
    else FirstRule(rules[1..], values)
  }

  /** The effective mode: the first rule that fires, else the binding's own mode, with an
      unmatched CONDITIONAL read as REQUIRED. */
  function Effective(a: ResourceAttribute, values: map<string, AttributeValue>): Effect {
    match FirstRule(a.rules, values)
    case Some(r) => Effect(r.mode, r.identityParticipates, r.notApplicable)
    case None => Effect(if a.mode == Conditional then Required else a.mode, a.identityParticipates, false)
  }

  predicate ModeHolds(e: Effect, present: bool) {
    && (e.mode == Required ==> present)
    && (e.mode == Forbidden ==> !present)
    && e.mode != Conditional
    && (present ==> !e.notApplicable)
  }

  predicate ModesHold(bound: map<string, ResourceAttribute>, values: map<string, AttributeValue>) {
    forall code :: code in bound ==> ModeHolds(Effective(bound[code], values), code in values)
  }

  // ----- identity v1 -----

  function TypeName(t: ValueType): string {
    match t
    case ControlledOption => "CONTROLLED_OPTION"
    case IntegerType => "INTEGER"
    case DecimalType => "DECIMAL"
    case QuantityType => "QUANTITY"
    case BooleanType => "BOOLEAN"
    case ControlledText => "CONTROLLED_TEXT"
    case OtherType(name) => name
  }

  function IdentityComponent(s: string): string {
    Text.Decimal(|s|) + ":" + s
  }

  /** One participating attribute. */
  datatype Part = Part(code: string, typeName: string, printed: string)

  function EncodePart(p: Part): string {
    IdentityComponent(p.code) + IdentityComponent(p.typeName) + IdentityComponent(p.printed)
  }

  function EncodeParts(parts: seq<Part>): string {
    if parts == [] then "" else EncodeParts(parts[..|parts| - 1]) + EncodePart(parts[|parts| - 1])
  }

  lemma EncodeSnoc(parts: seq<Part>, last: Part)
    ensures EncodeParts(parts + [last]) == EncodeParts(parts) + EncodePart(last)
  {
    hide EncodePart;
    assert (parts + [last])[..|parts|] == parts;
  }

  function IdentityKey(s: ResourceScope, parts: seq<Part>): string {
    "v1|" + IdentityComponent(s.classCode) + IdentityComponent(s.familyCode) + IdentityComponent(s.typeCode)
      + EncodeParts(parts)
  }

  /** The present values, in the order of `codes`. */
  function Present(codes: seq<string>, values: map<string, AttributeValue>): seq<AttributeValue> {
    if codes == [] then []
    else
      var code := codes[|codes| - 1];
      Present(codes[..|codes| - 1], values) + (if code in values then [values[code]] else [])
  }

  /** The participating triples, in the order of `codes`. */
  function Parts(codes: seq<string>, bound: map<string, ResourceAttribute>, values: map<string, AttributeValue>): seq<Part> {
    if codes == [] then []
    else
      var code := codes[|codes| - 1];
      Parts(codes[..|codes| - 1], bound, values) +
      (if code in values && code in bound && Effective(bound[code], values).participates
       then [Part(code, TypeName(values[code].typ), Printed(values[code]))] else [])
  }

  predicate StrictlySorted(codes: seq<string>) {
    forall i, j :: 0 <= i < j < |codes| ==> Less(codes[i], codes[j])
  }

  ghost predicate Listing(codes: seq<string>, keys: set<string>) {
    StrictlySorted(codes) && forall k :: k in codes <==> k in keys
  }

  lemma ListingFromSort(codes: seq<string>, picked: seq<string>, keys: set<string>)
    requires SortOf(codes, picked, AtMost) && Distinct(picked) && forall k :: k in picked <==> k in keys
    ensures Listing(codes, keys)
  {
    AtMostPreorder();
    RearrangedDistinct(codes, picked);
    forall k ensures k in codes <==> k in keys { RearrangedMember(codes, picked, k); }
    forall i, j | 0 <= i < j < |codes| ensures Less(codes[i], codes[j]) {
      LessTotal(codes[i], codes[j]);
    }
  }

  lemma ListingUnique(a: seq<string>, b: seq<string>, keys: set<string>)
    requires Listing(a, keys) && Listing(b, keys)
    ensures a == b
  {
    AtMostPreorder();
    ListingShape(a);
    ListingShape(b);
    SameElements(a, b);
    SortUnique(a, b, AtMost);
  }

  lemma ListingShape(a: seq<string>)
    requires StrictlySorted(a)
    ensures Distinct(a) && Sorted(a, AtMost)
  {
    forall i, j | 0 <= i < j < |a| ensures a[i] != a[j] && AtMost(a[i], a[j]) {
      LessIrreflexive(a[i]);
      if Less(a[j], a[i]) { LessTransitive(a[i], a[j], a[i]); }
    }
  }

  /** The keys in byte order. */
  ghost function SortedKeys(keys: set<string>): (codes: seq<string>)
    ensures Listing(codes, keys)
  {
    var picked := Enumerate(keys);
    AtMostPreorder();
    StableSortSorts(picked, AtMost);
    ListingFromSort(StableSort(picked, AtMost), picked, keys);
    StableSort(picked, AtMost)
  }

  ghost function Enumerate(keys: set<string>): (r: seq<string>)
    ensures Distinct(r) && forall k :: k in r <==> k in keys
  {
    if keys == {} then [] else var k :| k in keys; Enumerate(keys - {k}) + [k]
  }

  // ----- acceptance and result -----

  predicate HasFamily(c: ResourceCatalog, s: ResourceScope) {
    exists f :: f in c.families && FamilyOf(f, s)
  }

  predicate HasType(c: ResourceCatalog, s: ResourceScope) {
    s.typeCode != "" && exists t :: t in c.types && TypeOf(t, s)
  }

  predicate HasUnit(c: ResourceCatalog, unit: string) {
    exists u :: u in c.units && Canonical(u.code) == unit
  }

  predicate AllowedUnit(c: ResourceCatalog, s: ResourceScope, unit: string) {
    (exists p :: p in c.unitPolicies && PolicyFor(p, s, unit)) && HasUnit(c, unit)
  }

  predicate ScopeAndUnitDefined(c: ResourceCatalog, s: ResourceScope, unit: string) {
    HasFamily(c, s) && HasType(c, s) && AllowedUnit(c, s, unit)
  }

  /** What it takes for a resource to be accepted. */
  ghost predicate Accepts(c: ResourceCatalog, scope: ResourceScope, naturalUnit: string,
      values: seq<AttributeValue>, requireActive: bool) {
    var s, unit := CanonicalScope(scope), Canonical(naturalUnit);
    var bound := Bindings(c.attributes, s);
    && ScopeAndUnitDefined(c, s, unit)
    && ValuesFit(c, bound, values)
    && (var byCode := ByCode(c, bound, values);
        && (requireActive ==> ActiveChain(c, s, unit, bound, byCode))
        && RelationsCohere(c.relations, bound, byCode)
        && ModesHold(bound, byCode))
  }

  /** The canonical resource of accepted input. */
  ghost function Built(c: ResourceCatalog, scope: ResourceScope, naturalUnit: string, values: seq<AttributeValue>): Resource
    requires ValuesFit(c, Bindings(c.attributes, CanonicalScope(scope)), values)
  {
    var s := CanonicalScope(scope);
    var bound := Bindings(c.attributes, s);
    var byCode := ByCode(c, bound, values);
    var codes := SortedKeys(bound.Keys);
    Resource(0, s.classCode, s.familyCode, s.typeCode, Canonical(naturalUnit), Present(codes, byCode),
      IdentityKey(s, Parts(codes, bound, byCode)), 0, true)
  }

  /** The outcome of newResource: the canonical resource, or the class of the first check that
      fails. */
  ghost function Outcome(c: ResourceCatalog, scope: ResourceScope, naturalUnit: string,
      values: seq<AttributeValue>, requireActive: bool): Result<Resource> {
    var s, unit := CanonicalScope(scope), Canonical(naturalUnit);
    var bound := Bindings(c.attributes, s);
    if !ScopeAndUnitDefined(c, s, unit) || !ValuesFit(c, bound, values) then Err(Validation)
    else
      var byCode := ByCode(c, bound, values);
      if requireActive && !ActiveChain(c, s, unit, bound, byCode) then Err(Error.Reference)
      else if !RelationsCohere(c.relations, bound, byCode) || !ModesHold(bound, byCode) then Err(Validation)
      else Ok(Built(c, scope, naturalUnit, values))
  }
}

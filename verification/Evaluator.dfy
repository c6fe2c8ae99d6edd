/** The UI-facing evaluator of a scope: applicable bindings with their effective modes, positions
    and still-valid options, and its agreement with the writer. */
module Evaluator {
  import opened Text
  import opened Sorting
  import opened Catalog
  import opened Resource
  import opened ResourceBuild

  // ----- queries -----

  function AppliesTo(s: ResourceScope): ResourceAttribute -> bool {
    a => Applies(a, s)
  }

  function AttributesOf(c: ResourceCatalog, s: ResourceScope): seq<ResourceAttribute> {
    Filter(c.attributes, AppliesTo(s))
  }

  method AttributesFor(c: ResourceCatalog, s: ResourceScope) returns (attributes: seq<ResourceAttribute>)
    ensures attributes == AttributesOf(c, s)
  {
    hide Applies;
    attributes := [];
    for i := 0 to |c.attributes|
      invariant attributes == Filter(c.attributes[..i], AppliesTo(s))
    {
      assert c.attributes[..i + 1][..i] == c.attributes[..i];
      if Applies(c.attributes[i], s) { attributes := attributes + [c.attributes[i]]; }
    }
    assert c.attributes[..|c.attributes|] == c.attributes;
  }

  /** Bindings by code, a later one replacing an earlier one. */
  function Latest(attributes: seq<ResourceAttribute>): map<string, ResourceAttribute> {
    if attributes == [] then map[]
    else Latest(attributes[..|attributes| - 1])[BindingCode(attributes[|attributes| - 1]) := attributes[|attributes| - 1]]
  }

  /** The evaluator looks values up in the same bindings as the writer. */
  lemma {:induction false} SameBindings(attributes: seq<ResourceAttribute>, s: ResourceScope)
    ensures Latest(Filter(attributes, AppliesTo(s))) == Bindings(attributes, s)
  {
    hide Applies, BindingCode;
    if attributes != [] {
      var n := |attributes| - 1;
      SameBindings(attributes[..n], s);
      if Applies(attributes[n], s) {
        var before := Filter(attributes[..n], AppliesTo(s));
        assert (before + [attributes[n]])[..|before|] == before;
      }
    }
  }

  predicate InSet(o: AttributeOption, code: string, set_: string) {
    CanonicalAttribute(o.attributeCode) == code && CanonicalOptionSet(o.optionSet) == set_
  }

  function Offered(a: ResourceAttribute): AttributeOption -> bool {
    (o: AttributeOption) => o.active && InSet(o, BindingCode(a), SetKey(a))
  }

  function OptionsOf(c: ResourceCatalog, a: ResourceAttribute): seq<AttributeOption> {
    Filter(c.options, Offered(a))
  }

  method OptionsFor(c: ResourceCatalog, a: ResourceAttribute) returns (options: seq<AttributeOption>)
    ensures options == OptionsOf(c, a)
  {
    hide InSet, BindingCode, SetKey;
    options := [];
    for i := 0 to |c.options|
      invariant options == Filter(c.options[..i], Offered(a))
    {
      var o := c.options[i];
      assert c.options[..i + 1][..i] == c.options[..i];
      if o.active {
        if InSet(o, BindingCode(a), SetKey(a)) { options := options + [o]; }
      }
    }
    assert c.options[..|c.options|] == c.options;
  }

  /** Values by code, a later one replacing an earlier one. */
  function Chosen(current: seq<AttributeValue>): map<string, AttributeValue> {
    if current == [] then map[]
    else Chosen(current[..|current| - 1])[ValueCode(current[|current| - 1]) := current[|current| - 1]]
  }

  method IndexValues(current: seq<AttributeValue>) returns (chosen: map<string, AttributeValue>)
    ensures chosen == Chosen(current)
  {
    hide ValueCode;
    chosen := map[];
    for i := 0 to |current|
      invariant chosen == Chosen(current[..i])
    {
      assert current[..i + 1][..i] == current[..i];
      chosen := chosen[ValueCode(current[i]) := current[i]];
    }
    assert current[..|current|] == current;
  }

  function CodeIn(allowed: set<string>): AttributeOption -> bool {
    (o: AttributeOption) => o.code in allowed
  }

  /** What one relation leaves open for `code`, given the value chosen at its other end. */
  function OfferedBy(r: AttributeOptionRelation, set_: string, code: string, chosen: map<string, AttributeValue>): set<string> {
    var from, to := CanonicalAttribute(r.fromAttribute), CanonicalAttribute(r.toAttribute);
    if CanonicalOptionSet(r.optionSet) != set_ then {}
    else
      (if to == code && from in chosen && chosen[from].optionCode == r.fromOption then {r.toOption} else {}) +
      (if from == code && to in chosen && chosen[to].optionCode == r.toOption then {r.fromOption} else {})
  }

  function AllowedBy(relations: seq<AttributeOptionRelation>, set_: string, code: string, chosen: map<string, AttributeValue>): set<string> {
    if relations == [] then {}
    else AllowedBy(relations[..|relations| - 1], set_, code, chosen) + OfferedBy(relations[|relations| - 1], set_, code, chosen)
  }

  function ValidOptionsOf(c: ResourceCatalog, a: ResourceAttribute, current: seq<AttributeValue>): seq<AttributeOption> {
    var allowed := AllowedBy(c.relations, SetKey(a), BindingCode(a), Chosen(current));
    if allowed == {} then OptionsOf(c, a) else Filter(OptionsOf(c, a), CodeIn(allowed))
  }

  lemma {:induction false} AllowedMember(relations: seq<AttributeOptionRelation>, set_: string, code: string,
      chosen: map<string, AttributeValue>, option: string)
    ensures option in AllowedBy(relations, set_, code, chosen) <==>
      exists r :: r in relations && option in OfferedBy(r, set_, code, chosen)
  {
    hide OfferedBy;
    if relations != [] {
      var n := |relations| - 1;
      AllowedMember(relations[..n], set_, code, chosen, option);
      assert relations == relations[..n] + [relations[n]];
    }
  }

  method ValidOptions(c: ResourceCatalog, a: ResourceAttribute, current: seq<AttributeValue>) returns (valid: seq<AttributeOption>)
    ensures valid == ValidOptionsOf(c, a, current)
  {
    hide BindingCode, SetKey, CanonicalAttribute, CanonicalOptionSet, Chosen, Offered;
    var code, set_ := BindingCode(a), SetKey(a);
    var chosen := IndexValues(current);
    var allowed: set<string> := {};
    var constrained := false;
    for i := 0 to |c.relations|
      invariant allowed == AllowedBy(c.relations[..i], set_, code, chosen)
      invariant constrained <==> allowed != {}
    {
      var r := c.relations[i];
      assert c.relations[..i + 1][..i] == c.relations[..i];
      if CanonicalOptionSet(r.optionSet) == set_ {
        var from, to := CanonicalAttribute(r.fromAttribute), CanonicalAttribute(r.toAttribute);
        if to == code && from in chosen && chosen[from].optionCode == r.fromOption {
          allowed, constrained := allowed + {r.toOption}, true;
        }
        if from == code && to in chosen && chosen[to].optionCode == r.toOption {
          allowed, constrained := allowed + {r.fromOption}, true;
        }
      }
    }
    assert c.relations[..|c.relations|] == c.relations;
    var options := OptionsFor(c, a);
    if !constrained { return options; }
    valid := Narrow(options, allowed);
  }

  method Narrow(options: seq<AttributeOption>, allowed: set<string>) returns (narrowed: seq<AttributeOption>)
    ensures narrowed == Filter(options, CodeIn(allowed))
  {
    narrowed := [];
    for i := 0 to |options|
      invariant narrowed == Filter(options[..i], CodeIn(allowed))
    {
      assert options[..i + 1][..i] == options[..i];
      if options[i].code in allowed { narrowed := narrowed + [options[i]]; }
    }
    assert options[..|options|] == options;
  }

  // ----- presentation positions -----

  predicate FieldOf(f: PresentationField, s: ResourceScope) {
    f.active && Canonical(f.classCode) == s.classCode && Canonical(f.familyCode) == s.familyCode && Canonical(f.typeCode) == s.typeCode
  }

  function FieldsOf(s: ResourceScope): PresentationField -> bool {
    f => FieldOf(f, s)
  }

  predicate PositionAtMost(f: PresentationField, g: PresentationField) {
    f.position <= g.position
  }

  predicate Positioned(f: PresentationField, code: string) {
    CanonicalAttribute(f.attributeCode) == code
  }

  /** The largest position among the fields of a code: the one written last. */
  function LargestPosition(fields: seq<PresentationField>, code: string): Option<int> {
    if fields == [] then None
    else
      var f, before := fields[|fields| - 1], LargestPosition(fields[..|fields| - 1], code);
      if !Positioned(f, code) then before
      else if before.Some? && before.value > f.position then before else Some(f.position)
  }

  lemma {:induction false} LargestIsLargest(fields: seq<PresentationField>, code: string)
    ensures LargestPosition(fields, code).None? <==> forall f :: f in fields ==> !Positioned(f, code)
    ensures forall p :: LargestPosition(fields, code) == Some(p) ==>
      (exists f :: f in fields && Positioned(f, code) && f.position == p) &&
      (forall f :: f in fields && Positioned(f, code) ==> f.position <= p)
  {
    hide Positioned;
    if fields != [] {
      var n := |fields| - 1;
      LargestIsLargest(fields[..n], code);
      assert fields == fields[..n] + [fields[n]];
    }
  }

  /** Rearranging the fields moves no largest position. */
  lemma LargestRearranged(a: seq<PresentationField>, b: seq<PresentationField>, code: string)
    requires multiset(a) == multiset(b)
    ensures LargestPosition(a, code) == LargestPosition(b, code)
  {
    hide LargestPosition, Positioned;
    LargestIsLargest(a, code);
    LargestIsLargest(b, code);
    forall f ensures f in a <==> f in b { RearrangedMember(a, b, f); }
    var p, q := LargestPosition(a, code), LargestPosition(b, code);
    if p.Some? && q.Some? {
      var f :| f in a && Positioned(f, code) && f.position == p.value;
      var g :| g in b && Positioned(g, code) && g.position == q.value;
    }
  }

  function PositionOf(c: ResourceCatalog, s: ResourceScope, code: string): Option<int> {
    LargestPosition(Filter(c.presentationFields, FieldsOf(s)), code)
  }

  /** The positions as a Go map: fields sorted by position, later writes replacing earlier ones. */
  method Positions(c: ResourceCatalog, s: ResourceScope) returns (positions: map<string, int>)
    ensures forall code :: PositionOf(c, s, code) == if code in positions then Some(positions[code]) else None
  {
    hide FieldOf, CanonicalAttribute;
    var fields: seq<PresentationField> := [];
    for i := 0 to |c.presentationFields|
      invariant fields == Filter(c.presentationFields[..i], FieldsOf(s))
    {
      assert c.presentationFields[..i + 1][..i] == c.presentationFields[..i];
      if FieldOf(c.presentationFields[i], s) { fields := fields + [c.presentationFields[i]]; }
    }
    assert c.presentationFields[..|c.presentationFields|] == c.presentationFields;
    StableSortSorts(fields, PositionAtMost);
    var sorted := StableSort(fields, PositionAtMost);
    positions := WritePositions(sorted);
    forall code ensures PositionOf(c, s, code) == if code in positions then Some(positions[code]) else None {
      LargestRearranged(sorted, fields, code);
    }
  }

  method WritePositions(sorted: seq<PresentationField>) returns (positions: map<string, int>)
    requires Sorted(sorted, PositionAtMost)
    ensures forall code :: LargestPosition(sorted, code) == if code in positions then Some(positions[code]) else None
  {
    hide CanonicalAttribute;
    positions := map[];
    for i := 0 to |sorted|
      invariant forall code :: LargestPosition(sorted[..i], code) == if code in positions then Some(positions[code]) else None
    {
      assert sorted[..i + 1][..i] == sorted[..i];
      forall code ensures LargestPosition(sorted[..i], code).Some? ==> LargestPosition(sorted[..i], code).value <= sorted[i].position {
        LargestIsLargest(sorted[..i], code);
        if LargestPosition(sorted[..i], code).Some? {
          var f :| f in sorted[..i] && Positioned(f, code) && f.position == LargestPosition(sorted[..i], code).value;
          var j :| 0 <= j < i && sorted[j] == f;
          assert PositionAtMost(sorted[j], sorted[i]);
        }
      }
      positions := positions[CanonicalAttribute(sorted[i].attributeCode) := sorted[i].position];
    }
    assert sorted[..|sorted|] == sorted;
  }

  // ----- the evaluation -----

  const FAMILY_LEVEL := "FAMILY"
  const TYPE_LEVEL := "TYPE"

  datatype EffectiveAttribute = EffectiveAttribute(
    attribute: ResourceAttribute, effect: Effect, position: Option<int>,
    sourceLevel: string, sourceCode: string, options: seq<AttributeOption>)

  function Resolve(c: ResourceCatalog, s: ResourceScope, current: seq<AttributeValue>, a: ResourceAttribute): EffectiveAttribute {
    EffectiveAttribute(a, Effective(a, Chosen(current)), PositionOf(c, s, BindingCode(a)),
      if a.typeCode != "" then TYPE_LEVEL else FAMILY_LEVEL,
      if a.typeCode != "" then a.typeCode else s.familyCode,
      ValidOptionsOf(c, a, current))
  }

  function Resolver(c: ResourceCatalog, s: ResourceScope, current: seq<AttributeValue>): ResourceAttribute -> EffectiveAttribute {
    a => Resolve(c, s, current, a)
  }

  predicate Before(x: EffectiveAttribute, y: EffectiveAttribute) {
    if x.position.Some? != y.position.Some? then x.position.Some?
    else x.position.Some? && x.position.value < y.position.value
  }

  predicate NotAfter(x: EffectiveAttribute, y: EffectiveAttribute) {
    !Before(y, x)
  }

  lemma NotAfterPreorder()
    ensures Preorder(NotAfter)
  {
  }

  ghost function CanonicalList(c: ResourceCatalog, bound: map<string, ResourceAttribute>, values: seq<AttributeValue>): seq<AttributeValue>
    requires ValuesFit(c, bound, values)
  {
    seq(|values|, i requires 0 <= i < |values| => CanonicalValue(c, bound[ValueCode(values[i])], values[i]).value)
  }

  ghost function Evaluation(c: ResourceCatalog, scope: ResourceScope, current: seq<AttributeValue>): Result<seq<EffectiveAttribute>> {
    var s := CanonicalScope(scope);
    var bound := Bindings(c.attributes, s);
    if !ValuesFit(c, bound, current) then Err(Validation)
    else Ok(StableSort(Map(Resolver(c, s, CanonicalList(c, bound, current)), AttributesOf(c, s)), NotAfter))
  }

  lemma ListExtends(c: ResourceCatalog, bound: map<string, ResourceAttribute>, current: seq<AttributeValue>, i: nat)
    requires i < |current| && ValuesFit(c, bound, current[..i]) && ValuesFit(c, bound, current[..i + 1])
    ensures var code := ValueCode(current[i]);
      && ByCode(c, bound, current[..i + 1]).Keys == ByCode(c, bound, current[..i]).Keys + {code}
      && code in bound && CanonicalValue(c, bound[code], current[i]).Ok?
      && CanonicalList(c, bound, current[..i + 1]) == CanonicalList(c, bound, current[..i]) + [CanonicalValue(c, bound[code], current[i]).value]
  {
    hide CanonicalValue, ValueCode;
    var now := current[..i + 1];
    assert now[i] in now;
    assert now[..i] == current[..i] && now[i] == current[i];
  }

  /** How one more value extends the canonical list, and when it cannot. */
  lemma ListStep(c: ResourceCatalog, bound: map<string, ResourceAttribute>, current: seq<AttributeValue>, i: nat)
    requires i < |current| && ValuesFit(c, bound, current[..i])
    ensures var code, now := ValueCode(current[i]), current[..i + 1];
      if code !in ByCode(c, bound, current[..i]) && code in bound && CanonicalValue(c, bound[code], current[i]).Ok? then
        && ValuesFit(c, bound, now)
        && ByCode(c, bound, now).Keys == ByCode(c, bound, current[..i]).Keys + {code}
        && CanonicalList(c, bound, now) == CanonicalList(c, bound, current[..i]) + [CanonicalValue(c, bound[code], current[i]).value]
      else !ValuesFit(c, bound, current)
  {
    hide CanonicalValue, ValueCode, ValuesFit, ByCode, CanonicalList;
    FitStep(c, bound, current, i);
    if ValuesFit(c, bound, current) { FitPrefix(c, bound, current, i + 1); }
    if ValuesFit(c, bound, current[..i + 1]) { ListExtends(c, bound, current, i); }
  }

  method CanonicalizeAll(c: ResourceCatalog, bound: map<string, ResourceAttribute>, current: seq<AttributeValue>)
      returns (r: Result<seq<AttributeValue>>)
    ensures r.Ok? <==> ValuesFit(c, bound, current)
    ensures r.Ok? ==> r.value == CanonicalList(c, bound, current)
    ensures r.Err? ==> r.error == Validation
  {
    assert current[..0] == [];
    assert ValuesFit(c, bound, []) && ByCode(c, bound, []) == map[] && CanonicalList(c, bound, []) == [];
    hide CanonicalValue, ValueCode, ByCode, ValuesFit, CanonicalList;
    var list: seq<AttributeValue> := [];
    var seen: set<string> := {};
    for i := 0 to |current|
      invariant ValuesFit(c, bound, current[..i]) && list == CanonicalList(c, bound, current[..i])
      invariant seen == ByCode(c, bound, current[..i]).Keys
    {
      var code := ValueCode(current[i]);
      ListStep(c, bound, current, i);
      if code in seen || code !in bound { return Err(Validation); }
      seen := seen + {code};
      var canonical := CanonicalValue(c, bound[code], current[i]);
      if canonical.Err? { return Err(Validation); }
      list := list + [canonical.value];
    }
    assert current[..|current|] == current;
    return Ok(list);
  }

  method EffectiveAttributesFor(c: ResourceCatalog, scope: ResourceScope, current: seq<AttributeValue>)
      returns (r: Result<seq<EffectiveAttribute>>)
    ensures r == Evaluation(c, scope, current)
  {
    hide CanonicalScope, Bindings, Latest, ValuesFit, CanonicalList, Effective, PositionOf, ValidOptionsOf, BindingCode, StableSort, AttributesOf;
    var s := CanonicalScope(scope);
    var attributes := AttributesFor(c, s);
    var byCode := LatestByCode(c, s, attributes);
    var canonical := CanonicalizeAll(c, byCode, current);
    if canonical.Err? { return Err(canonical.error); }
    var positions := Positions(c, s);
    var result: seq<EffectiveAttribute> := [];
    for i := 0 to |attributes|
      invariant |result| == i && forall j :: 0 <= j < i ==> result[j] == Resolve(c, s, canonical.value, attributes[j])
    {
      var a := attributes[i];
      var chosen := IndexValues(canonical.value);
      var code := BindingCode(a);
      var options := ValidOptions(c, a, canonical.value);
      var level, source := FAMILY_LEVEL, s.familyCode;
      if a.typeCode != "" { level, source := TYPE_LEVEL, a.typeCode; }
      result := result + [EffectiveAttribute(a, Effective(a, chosen),
        if code in positions then Some(positions[code]) else None, level, source, options)];
    }
    assert result == Map(Resolver(c, s, canonical.value), attributes);
    return Ok(StableSort(result, NotAfter));
  }

  method LatestByCode(c: ResourceCatalog, s: ResourceScope, attributes: seq<ResourceAttribute>) returns (byCode: map<string, ResourceAttribute>)
    requires attributes == AttributesOf(c, s)
    ensures byCode == Bindings(c.attributes, s)
  {
    hide BindingCode, Bindings;
    byCode := map[];
    for i := 0 to |attributes|
      invariant byCode == Latest(attributes[..i])
    {
      assert attributes[..i + 1][..i] == attributes[..i];
      byCode := byCode[BindingCode(attributes[i]) := attributes[i]];
    }
    assert attributes[..|attributes|] == attributes;
    SameBindings(c.attributes, s);
  }
}

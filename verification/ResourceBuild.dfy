/** newResource, validateActiveChain, validateRelations, RehydrateResource and the reactivation
    candidate as they run: loops over slices and maps, met against the specification. */
module ResourceBuild {
  import opened Text
  import opened Sorting
  import opened Catalog
  import opened Resource

  // ----- collecting values -----

  lemma FitPrefix(c: ResourceCatalog, bound: map<string, ResourceAttribute>, values: seq<AttributeValue>, i: nat)
    requires i <= |values| && ValuesFit(c, bound, values)
    ensures ValuesFit(c, bound, values[..i])
  {
    hide CanonicalValue, ValueCode;
  }

  /** One more value fits when its code is new, bound, and its value has a canonical form. */
  lemma FitStep(c: ResourceCatalog, bound: map<string, ResourceAttribute>, values: seq<AttributeValue>, i: nat)
    requires i < |values| && ValuesFit(c, bound, values[..i])
    ensures ValuesFit(c, bound, values[..i + 1]) <==>
      var code := ValueCode(values[i]);
      code !in ByCode(c, bound, values[..i]) && code in bound && CanonicalValue(c, bound[code], values[i]).Ok?
  {
    hide CanonicalValue, ValueCode, ByCode;
    var before, now, code := values[..i], values[..i + 1], ValueCode(values[i]);
    ByCodeHolds(c, bound, before);
    assert now == before + [values[i]];
    if j :| 0 <= j < i && ValueCode(values[j]) == code {
      assert now[j] == before[j] == values[j] && now[i] == values[i];
      assert values[j] in before;
    } else {
      assert forall v :: v in before ==> exists j :: 0 <= j < i && values[j] == v;
      assert code !in ByCode(c, bound, before);
      assert values[i] in now;
    }
  }

  // ----- the active chain -----

  method UnitIsActive(units: seq<UnitDefinition>, unit: string) returns (active: bool)
    ensures active == UnitActive(units, unit)
  {
    hide Canonical;
    active := false;
    for i := 0 to |units|
      invariant !active && UnitActive(units, unit) == UnitActive(units[i..], unit)
    {
      assert units[i..][0] == units[i] && units[i..][1..] == units[i + 1..];
      if Canonical(units[i].code) == unit {
        active := units[i].active;
        break;
      }
    }
  }

  method PolicyIsActive(policies: seq<ResourceUnitPolicy>, s: ResourceScope, unit: string) returns (active: bool)
    ensures active == PolicyActive(policies, s, unit)
  {
    hide PolicyFor;
    active := false;
    for i := 0 to |policies|
      invariant !active && PolicyActive(policies, s, unit) == PolicyActive(policies[i..], s, unit)
    {
      assert policies[i..][0] == policies[i] && policies[i..][1..] == policies[i + 1..];
      if PolicyFor(policies[i], s, unit) {
        active := policies[i].active;
        break;
      }
    }
  }

  method OptionIsActive(options: seq<AttributeOption>, code: string, set_: string, raw: string) returns (active: bool)
    ensures active == OptionActive(options, code, set_, raw)
  {
    hide IsOptionOf;
    for i := 0 to |options|
      invariant OptionActive(options, code, set_, raw) == OptionActive(options[i..], code, set_, raw)
    {
      assert options[i..][0] == options[i] && options[i..][1..] == options[i + 1..];
      if IsOptionOf(options[i], code, set_, raw) {
        return options[i].active;
      }
    }
    return true;
  }

  method ParentsAreActive(c: ResourceCatalog, s: ResourceScope) returns (ok: bool)
    ensures ok <==>
      && (forall k :: k in c.classes && ClassOf(k, s) ==> k.active)
      && (forall f :: f in c.families && FamilyOf(f, s) ==> f.active)
      && (forall t :: t in c.types && TypeOf(t, s) ==> t.active)
  {
    hide ClassOf, FamilyOf, TypeOf;
    for i := 0 to |c.classes|
      invariant forall j :: 0 <= j < i && ClassOf(c.classes[j], s) ==> c.classes[j].active
    {
      if ClassOf(c.classes[i], s) && !c.classes[i].active { return false; }
    }
    for i := 0 to |c.families|
      invariant forall j :: 0 <= j < i && FamilyOf(c.families[j], s) ==> c.families[j].active
    {
      if FamilyOf(c.families[i], s) && !c.families[i].active { return false; }
    }
    for i := 0 to |c.types|
      invariant forall j :: 0 <= j < i && TypeOf(c.types[j], s) ==> c.types[j].active
    {
      if TypeOf(c.types[i], s) && !c.types[i].active { return false; }
    }
    return true;
  }

  method BindingIsActive(c: ResourceCatalog, code: string, a: ResourceAttribute, values: map<string, AttributeValue>) returns (ok: bool)
    ensures ok == BindingActive(c, code, a, values)
  {
    hide OptionSetActive, DefinitionActive, OptionActive;
    if !a.active || !DefinitionActive(c, code, a) { return false; }
    if !OptionSetActive(c.optionSets, SetKey(a)) { return false; }
    for i := 0 to |a.rules|
      invariant forall j :: 0 <= j < i ==> a.rules[j].active
    {
      if !a.rules[i].active { return false; }
    }
    if code in values && values[code].typ == ControlledOption {
      ok := OptionIsActive(c.options, code, SetKey(a), values[code].optionCode);
      return;
    }
    return true;
  }

  /** The bindings are visited in the arbitrary order of a Go map. */
  method ValidateActiveChain(c: ResourceCatalog, s: ResourceScope, unit: string,
      bound: map<string, ResourceAttribute>, values: map<string, AttributeValue>) returns (ok: bool)
    ensures ok == ActiveChain(c, s, unit, bound, values)
  {
    hide ClassOf, FamilyOf, TypeOf, UnitActive, PolicyActive, BindingActive, Relevant;
    if !ActiveSemantics(c) { return true; }
    ok := ParentsAreActive(c, s);
    if !ok { return; }
    ok := UnitIsActive(c.units, unit);
    if !ok { return; }
    ok := PolicyIsActive(c.unitPolicies, s, unit);
    if !ok { return; }
    var pending := bound.Keys;
    while pending != {}
      invariant pending <= bound.Keys
      invariant forall code :: code in bound && code !in pending ==> BindingActive(c, code, bound[code], values)
      decreases |pending|
    {
      var code :| code in pending;
      ok := BindingIsActive(c, code, bound[code], values);
      if !ok { return; }
      pending := pending - {code};
    }
    for i := 0 to |c.relations|
      invariant forall j :: 0 <= j < i && Relevant(c.relations[j], bound) ==> c.relations[j].active
    {
      if Relevant(c.relations[i], bound) && !c.relations[i].active { return false; }
    }
    return true;
  }

  // ----- relations -----

  /** `groups` files the relevant relations under their joined keys. */
  ghost predicate Grouped(groups: map<string, seq<AttributeOptionRelation>>, relations: seq<AttributeOptionRelation>,
      bound: map<string, ResourceAttribute>) {
    && (forall r :: r in relations && Relevant(r, bound) ==> GroupKey(r) in groups && r in groups[GroupKey(r)])
    && (forall key, r :: key in groups && r in groups[key] ==> r in relations && Relevant(r, bound) && GroupKey(r) == key)
    && (forall key :: key in groups ==> groups[key] != [])
  }

  method GroupRelations(relations: seq<AttributeOptionRelation>, bound: map<string, ResourceAttribute>)
      returns (groups: map<string, seq<AttributeOptionRelation>>)
    ensures Grouped(groups, relations, bound)
  {
    hide Relevant, GroupKey;
    groups := map[];
    for i := 0 to |relations|
      invariant Grouped(groups, relations[..i], bound)
    {
      var r := relations[i];
      assert relations[..i + 1] == relations[..i] + [r];
      if Relevant(r, bound) {
        var key := GroupKey(r);
        groups := groups[key := (if key in groups then groups[key] else []) + [r]];
      }
    }
    assert relations[..|relations|] == relations;
  }

  lemma GroupDecides(groups: map<string, seq<AttributeOptionRelation>>, relations: seq<AttributeOptionRelation>,
      bound: map<string, ResourceAttribute>, values: map<string, AttributeValue>, key: string)
    requires Grouped(groups, relations, bound) && key in groups
    ensures GroupCoheres(relations, bound, values, key) <==>
      (FirstPart(key) in values && SecondPart(key) in values ==>
        exists q :: q in groups[key] && Admits(q, values[FirstPart(key)], values[SecondPart(key)]))
  {
    hide Relevant, GroupKey, FirstPart, SecondPart, Admits;
  }

  /** Groups are visited in the arbitrary order of a Go map. */
  method ValidateRelations(relations: seq<AttributeOptionRelation>, bound: map<string, ResourceAttribute>,
      values: map<string, AttributeValue>) returns (ok: bool)
    ensures ok == RelationsCohere(relations, bound, values)
  {
    hide Relevant, GroupKey, FirstPart, SecondPart, Admits, GroupCoheres;
    var groups := GroupRelations(relations, bound);
    var pending := groups.Keys;
    while pending != {}
      invariant pending <= groups.Keys
      invariant forall key :: key in groups && key !in pending ==> GroupCoheres(relations, bound, values, key)
      decreases |pending|
    {
      var key :| key in pending;
      pending := pending - {key};
      GroupDecides(groups, relations, bound, values, key);
      if FirstPart(key) in values && SecondPart(key) in values {
        var from, to := values[FirstPart(key)], values[SecondPart(key)];
        var valid := false;
        for i := 0 to |groups[key]|
          invariant !valid && forall j :: 0 <= j < i ==> !Admits(groups[key][j], from, to)
        {
          if Admits(groups[key][i], from, to) {
            valid := true;
            break;
          }
        }
        if !valid {
          assert groups[key][0] in groups[key];
          assert forall q :: q in groups[key] ==> !Admits(q, from, to);
          assert !GroupCoheres(relations, bound, values, key);
          assert GroupKey(groups[key][0]) == key;
          return false;
        }
      }
    }
    return true;
  }

  // ----- construction -----

  predicate CodeAtMost(v: AttributeValue, w: AttributeValue) {
    AtMost(v.attributeCode, w.attributeCode)
  }

  lemma CodeAtMostPreorder()
    ensures Preorder(CodeAtMost)
  {
    AtMostPreorder();
    hide AtMost;
  }

  /** sort.Slice by attribute code. */
  method SortByCode(values: seq<AttributeValue>) returns (sorted: seq<AttributeValue>)
    ensures SortOf(sorted, values, CodeAtMost)
  {
    CodeAtMostPreorder();
    StableSortSorts(values, CodeAtMost);
    sorted := StableSort(values, CodeAtMost);
  }

  /** Every canonical value is filed under its own code. */
  ghost predicate KeyedByCode(values: map<string, AttributeValue>) {
    forall code :: code in values ==> values[code].attributeCode == code
  }

  lemma ByCodeIsKeyed(c: ResourceCatalog, bound: map<string, ResourceAttribute>, values: seq<AttributeValue>)
    requires ValuesFit(c, bound, values)
    ensures KeyedByCode(ByCode(c, bound, values))
  {
    hide ByCode, ValueCode, HasOption, Squeeze, Canonical, BindingCode, SetKey, Blank;
    ByCodeHolds(c, bound, values);
  }

  /** The codes of the present values, in the order of `codes`. */
  lemma {:induction false} PresentSorted(codes: seq<string>, values: map<string, AttributeValue>)
    requires StrictlySorted(codes) && KeyedByCode(values)
    ensures forall v :: v in Present(codes, values) ==> v.attributeCode in codes && v.attributeCode in values && v == values[v.attributeCode]
    ensures forall i, j :: 0 <= i < j < |Present(codes, values)| ==>
      Less(Present(codes, values)[i].attributeCode, Present(codes, values)[j].attributeCode)
  {
    hide Less;
    if codes != [] {
      var n := |codes| - 1;
      PresentSorted(codes[..n], values);
      var before := Present(codes[..n], values);
      forall i | 0 <= i < |before| ensures Less(before[i].attributeCode, codes[n]) {
        assert before[i] in before;
      }
    }
  }

  /** The final sort of newResource moves nothing. */
  lemma FinalSortIsNoOp(codes: seq<string>, values: map<string, AttributeValue>, sorted: seq<AttributeValue>)
    requires StrictlySorted(codes) && KeyedByCode(values)
    requires SortOf(sorted, Present(codes, values), CodeAtMost)
    ensures sorted == Present(codes, values)
  {
    var present := Present(codes, values);
    PresentSorted(codes, values);
    AtMostPreorder();
    forall i, j | 0 <= i < j < |present| ensures CodeAtMost(present[i], present[j]) {
      LessIrreflexive(present[i].attributeCode);
      if Less(present[j].attributeCode, present[i].attributeCode) {
        LessTransitive(present[i].attributeCode, present[j].attributeCode, present[i].attributeCode);
      }
    }
    hide AtMost, Less;
    SortUnique(present, sorted, CodeAtMost);
  }

  method CollectValues(c: ResourceCatalog, bound: map<string, ResourceAttribute>, values: seq<AttributeValue>)
      returns (r: Result<map<string, AttributeValue>>)
    ensures r.Ok? <==> ValuesFit(c, bound, values)
    ensures r.Ok? ==> r.value == ByCode(c, bound, values)
    ensures r.Err? ==> r.error == Validation
  {
    hide CanonicalValue, ValueCode;
    var byCode: map<string, AttributeValue> := map[];
    for i := 0 to |values|
      invariant ValuesFit(c, bound, values[..i]) && byCode == ByCode(c, bound, values[..i])
    {
      var code := ValueCode(values[i]);
      FitStep(c, bound, values, i);
      if ValuesFit(c, bound, values) { FitPrefix(c, bound, values, i + 1); }
      if code in byCode { return Err(Validation); }
      if code !in bound { return Err(Validation); }
      var canonical := CanonicalValue(c, bound[code], values[i]);
      if canonical.Err? { return Err(Validation); }
      byCode := byCode[code := canonical.value];
      assert values[..i + 1][..i] == values[..i];
    }
    assert values[..|values|] == values;
    return Ok(byCode);
  }

  /** The identity text contributed by one code. */
  function Contribution(code: string, bound: map<string, ResourceAttribute>, byCode: map<string, AttributeValue>): string {
    if code in byCode && code in bound && Effective(bound[code], byCode).participates
    then EncodePart(Part(code, TypeName(byCode[code].typ), Printed(byCode[code]))) else ""
  }

  lemma ContributionOf(code: string, bound: map<string, ResourceAttribute>, byCode: map<string, AttributeValue>)
    requires code in bound
    ensures Contribution(code, bound, byCode) ==
      if code in byCode && Effective(bound[code], byCode).participates
      then EncodePart(Part(code, TypeName(byCode[code].typ), Printed(byCode[code]))) else ""
  {}

  lemma ModeStep(codes: seq<string>, i: nat, bound: map<string, ResourceAttribute>, byCode: map<string, AttributeValue>)
    requires i < |codes|
    ensures Present(codes[..i + 1], byCode) ==
      Present(codes[..i], byCode) + if codes[i] in byCode then [byCode[codes[i]]] else []
    ensures EncodeParts(Parts(codes[..i + 1], bound, byCode)) ==
      EncodeParts(Parts(codes[..i], bound, byCode)) + Contribution(codes[i], bound, byCode)
  {
    hide Effective, Printed, TypeName, EncodePart, EncodeParts;
    var code, parts := codes[i], Parts(codes[..i], bound, byCode);
    assert codes[..i + 1][..i] == codes[..i];
    if code in byCode && code in bound && Effective(bound[code], byCode).participates {
      EncodeSnoc(parts, Part(code, TypeName(byCode[code].typ), Printed(byCode[code])));
    } else {
      assert parts + [] == parts;
    }
  }

  /** The loop over the sorted codes: mode checks, values and identity parts. */
  method ApplyModes(codes: seq<string>, bound: map<string, ResourceAttribute>, byCode: map<string, AttributeValue>)
      returns (ok: bool, present: seq<AttributeValue>, identity: string)
    requires Listing(codes, bound.Keys) && byCode.Keys <= bound.Keys
    ensures ok == ModesHold(bound, byCode)
    ensures ok ==> present == Present(codes, byCode) && identity == EncodeParts(Parts(codes, bound, byCode))
  {
    present, identity := [], "";
    assert codes[..0] == [];
    hide Effective, Printed, TypeName, EncodePart, Present, Parts, EncodeParts, StrictlySorted, Contribution;
    for i := 0 to |codes|
      invariant forall j :: 0 <= j < i ==> ModeHolds(Effective(bound[codes[j]], byCode), codes[j] in byCode)
      invariant present == Present(codes[..i], byCode)
      invariant identity == EncodeParts(Parts(codes[..i], bound, byCode))
    {
      var code := codes[i];
      assert code in codes;
      ModeStep(codes, i, bound, byCode);
      var effect := Effective(bound[code], byCode);
      var supplied := code in byCode;
      if (effect.mode == Required && !supplied) || (effect.mode == Forbidden && supplied)
          || effect.mode == Conditional || (supplied && effect.notApplicable) {
        return false, [], "";
      }
      ContributionOf(code, bound, byCode);
      if supplied {
        present := present + [byCode[code]];
        if effect.participates {
          identity := identity + EncodePart(Part(code, TypeName(byCode[code].typ), Printed(byCode[code])));
        }
      }
    }
    assert codes[..|codes|] == codes;
    assert forall code :: code in bound ==> code in codes;
    return true, present, identity;
  }

  /** The keys of a Go map, ranged over in arbitrary order and then sorted. */
  method RangeAndSort(bound: map<string, ResourceAttribute>) returns (codes: seq<string>)
    ensures codes == SortedKeys(bound.Keys)
  {
    var pending, picked := bound.Keys, [];
    while pending != {}
      invariant pending <= bound.Keys && Distinct(picked)
      invariant forall k :: k in picked <==> k in bound && k !in pending
      decreases |pending|
    {
      var code :| code in pending;
      picked := picked + [code];
      pending := pending - {code};
    }
    AtMostPreorder();
    StableSortSorts(picked, AtMost);
    codes := StableSort(picked, AtMost);
    ListingFromSort(codes, picked, bound.Keys);
    ListingUnique(codes, SortedKeys(bound.Keys), bound.Keys);
  }

  method NewResource(c: ResourceCatalog, scope: ResourceScope, naturalUnit: string,
      values: seq<AttributeValue>, requireActive: bool) returns (r: Result<Resource>)
    ensures r == Outcome(c, scope, naturalUnit, values, requireActive)
    ensures r.Ok? <==> Accepts(c, scope, naturalUnit, values, requireActive)
  {
    hide ScopeAndUnitDefined, CanonicalScope, Canonical, ValuesFit, ByCode, ActiveChain, RelationsCohere, ModesHold;
    hide Listing, SortedKeys, Present, Parts, EncodeParts;
    var s, unit := CanonicalScope(scope), Canonical(naturalUnit);
    if !ScopeAndUnitDefined(c, s, unit) { return Err(Validation); }
    var bound := ResourceAttributes(c, s);
    var collected := CollectValues(c, bound, values);
    if collected.Err? { return Err(collected.error); }
    var byCode := collected.value;
    if requireActive {
      var active := ValidateActiveChain(c, s, unit, bound, byCode);
      if !active { return Err(Error.Reference); }
    }
    var coherent := ValidateRelations(c.relations, bound, byCode);
    if !coherent { return Err(Validation); }
    var codes := RangeAndSort(bound);
    KeysAreBound(c, bound, values);
    var ok, present, identity := ApplyModes(codes, bound, byCode);
    if !ok { return Err(Validation); }
    var sorted := SortByCode(present);
    ListingKeyed(c, bound, values, codes, sorted);
    return Ok(Resource(0, s.classCode, s.familyCode, s.typeCode, unit, sorted,
      "v1|" + IdentityComponent(s.classCode) + IdentityComponent(s.familyCode) + IdentityComponent(s.typeCode) + identity,
      0, true));
  }

  lemma KeysAreBound(c: ResourceCatalog, bound: map<string, ResourceAttribute>, values: seq<AttributeValue>)
    requires ValuesFit(c, bound, values)
    ensures ByCode(c, bound, values).Keys <= bound.Keys
  {
    hide CanonicalValue, ValueCode;
    ByCodeHolds(c, bound, values);
  }

  lemma ListingKeyed(c: ResourceCatalog, bound: map<string, ResourceAttribute>, values: seq<AttributeValue>,
      codes: seq<string>, sorted: seq<AttributeValue>)
    requires ValuesFit(c, bound, values) && Listing(codes, bound.Keys)
    requires SortOf(sorted, Present(codes, ByCode(c, bound, values)), CodeAtMost)
    ensures sorted == Present(codes, ByCode(c, bound, values))
  {
    ByCodeIsKeyed(c, bound, values);
    hide ValuesFit, ByCode;
    FinalSortIsNoOp(codes, ByCode(c, bound, values), sorted);
  }
}

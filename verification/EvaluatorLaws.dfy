/** The evaluator agrees with the writer, and never withholds an option the writer accepted. */
module EvaluatorLaws {
  import opened Text
  import opened Sorting
  import opened Catalog
  import opened Resource
  import opened ResourceBuild
  import opened ResourceLaws
  import opened Evaluator

  /** Indexing the canonical list gives the writer's values by code. */
  lemma {:induction false} ChosenIsByCode(c: ResourceCatalog, bound: map<string, ResourceAttribute>, values: seq<AttributeValue>)
    requires ValuesFit(c, bound, values)
    ensures Chosen(CanonicalList(c, bound, values)) == ByCode(c, bound, values)
  {
    if values != [] {
      var n := |values| - 1;
      FitPrefix(c, bound, values, n);
      ChosenIsByCode(c, bound, values[..n]);
      assert values[n] in values;
      CanonicalValueFixed(c, bound[ValueCode(values[n])], values[n]);
      hide CanonicalValue, ValueCode, ValuesFit;
      var list := CanonicalList(c, bound, values);
      assert list[..n] == CanonicalList(c, bound, values[..n]);
      assert list[n] == CanonicalValue(c, bound[ValueCode(values[n])], values[n]).value;
    }
  }

  lemma {:induction false} BoundIsListed(c: ResourceCatalog, s: ResourceScope, code: string)
    requires code in Bindings(c.attributes, s)
    ensures Bindings(c.attributes, s)[code] in AttributesOf(c, s) && BindingCode(Bindings(c.attributes, s)[code]) == code
  {
    hide Applies, BindingCode, Bindings;
    var i := BindingIsLast(c.attributes, s, code);
    assert c.attributes[i] in c.attributes;
  }

  /** An entry of an evaluation resolves one applicable binding. */
  lemma EvaluationEntries(c: ResourceCatalog, scope: ResourceScope, current: seq<AttributeValue>)
    requires Evaluation(c, scope, current).Ok?
    ensures var s := CanonicalScope(scope);
      var list := CanonicalList(c, Bindings(c.attributes, s), current);
      var result := Evaluation(c, scope, current).value;
      && SortOf(result, Map(Resolver(c, s, list), AttributesOf(c, s)), NotAfter)
      && (forall x :: x in result ==> x.attribute in AttributesOf(c, s) && x == Resolve(c, s, list, x.attribute))
      && (forall a :: a in AttributesOf(c, s) ==> Resolve(c, s, list, a) in result)
  {
    hide CanonicalScope, Bindings, ValuesFit, CanonicalList, Effective, PositionOf, ValidOptionsOf, BindingCode, AttributesOf;
    var s := CanonicalScope(scope);
    var list := CanonicalList(c, Bindings(c.attributes, s), current);
    var raw := Map(Resolver(c, s, list), AttributesOf(c, s));
    NotAfterPreorder();
    StableSortSorts(raw, NotAfter);
    var result := Evaluation(c, scope, current).value;
    forall x ensures x in result <==> x in raw { RearrangedMember(result, raw, x); }
    forall a | a in AttributesOf(c, s) ensures Resolve(c, s, list, a) in result {
      var i :| 0 <= i < |AttributesOf(c, s)| && AttributesOf(c, s)[i] == a;
      assert raw[i] == Resolve(c, s, list, a);
    }
    forall x | x in result ensures x.attribute in AttributesOf(c, s) && x == Resolve(c, s, list, x.attribute) {
      var i :| 0 <= i < |raw| && raw[i] == x;
      assert raw[i] == Resolve(c, s, list, AttributesOf(c, s)[i]);
    }
  }

  /** The evaluation succeeds exactly on the values that fit the scope, so on every list the
      writer accepts; the mode it shows for a binding is the one the writer applies to the same
      values, every bound code has its winning binding shown, and that mode is one the accepted
      values meet. */
  lemma EvaluatorAgreesWithWriter(c: ResourceCatalog, scope: ResourceScope, unit: string, values: seq<AttributeValue>, requireActive: bool)
    requires Accepts(c, scope, unit, values, requireActive)
    ensures Evaluation(c, scope, values).Ok?
    ensures var bound := Bindings(c.attributes, CanonicalScope(scope));
      var byCode := ByCode(c, bound, values);
      var result := Evaluation(c, scope, values).value;
      && (forall x :: x in result ==> x.effect == Effective(x.attribute, byCode))
      && (forall code :: code in bound ==> exists x :: x in result && x.attribute == bound[code] && BindingCode(x.attribute) == code)
      && (forall x, code :: x in result && code in bound && bound[code] == x.attribute ==> ModeHolds(x.effect, code in byCode))
  {
    hide CanonicalScope, Bindings, ByCode, ValuesFit, CanonicalList, Effective, PositionOf, ValidOptionsOf, BindingCode, AttributesOf;
    hide RelationsCohere, ActiveChain, ScopeAndUnitDefined, ModeHolds;
    var s := CanonicalScope(scope);
    var bound := Bindings(c.attributes, s);
    var list := CanonicalList(c, bound, values);
    EvaluationEntries(c, scope, values);
    ChosenIsByCode(c, bound, values);
    var result := Evaluation(c, scope, values).value;
    forall code | code in bound
      ensures exists x :: x in result && x.attribute == bound[code] && BindingCode(x.attribute) == code
    {
      BoundIsListed(c, s, code);
      assert Resolve(c, s, list, bound[code]).attribute == bound[code];
    }
  }

  /** The evaluation lists the applicable bindings, each as often as declared; positioned ones come
      first by position, and bindings the order cannot tell apart keep their declaration order. */
  lemma EvaluationLayout(c: ResourceCatalog, scope: ResourceScope, current: seq<AttributeValue>)
    requires Evaluation(c, scope, current).Ok?
    ensures var s := CanonicalScope(scope);
      var result := Evaluation(c, scope, current).value;
      && multiset(Map((x: EffectiveAttribute) => x.attribute, result)) == multiset(AttributesOf(c, s))
      && (forall i, j :: 0 <= i < j < |result| ==>
            (result[j].position.Some? ==> result[i].position.Some? && result[i].position.value <= result[j].position.value))
      && StableSortOf(result, Map(Resolver(c, s, CanonicalList(c, Bindings(c.attributes, s), current)), AttributesOf(c, s)), NotAfter)
  {
    hide CanonicalScope, Bindings, ValuesFit, CanonicalList, Effective, PositionOf, ValidOptionsOf, BindingCode, AttributesOf;
    var s := CanonicalScope(scope);
    var raw := Map(Resolver(c, s, CanonicalList(c, Bindings(c.attributes, s), current)), AttributesOf(c, s));
    var result := Evaluation(c, scope, current).value;
    var attributeOf := (x: EffectiveAttribute) => x.attribute;
    EvaluationEntries(c, scope, current);
    NotAfterPreorder();
    StableSortMeetsContract(raw, NotAfter);
    MapKeepsRearrangement(attributeOf, result, raw);
    assert Map(attributeOf, raw) == AttributesOf(c, s);
    assert Map((x: EffectiveAttribute) => x.attribute, result) == Map(attributeOf, result);
    forall i, j | 0 <= i < j < |result| && result[j].position.Some?
      ensures result[i].position.Some? && result[i].position.value <= result[j].position.value
    {
      assert NotAfter(result[i], result[j]);
    }
  }

  // ----- valid options -----

  predicate NoSeparator(bound: map<string, ResourceAttribute>) {
    forall code :: code in bound ==> '|' !in code
  }

  /** Every relation naming a bound attribute has both ends bound, to its own option set. */
  predicate RelationsStayInScope(relations: seq<AttributeOptionRelation>, bound: map<string, ResourceAttribute>) {
    forall r :: r in relations && (CanonicalAttribute(r.fromAttribute) in bound || CanonicalAttribute(r.toAttribute) in bound)
      ==> Relevant(r, bound)
  }

  /** A value list drawn from the accepted values. */
  predicate DrawnFrom(current: seq<AttributeValue>, byCode: map<string, AttributeValue>) {
    forall v :: v in current ==> ValueCode(v) in byCode && v == byCode[ValueCode(v)]
  }

  lemma {:induction false} ChosenIsDrawn(current: seq<AttributeValue>, byCode: map<string, AttributeValue>)
    requires DrawnFrom(current, byCode)
    ensures forall code :: code in Chosen(current) ==> code in byCode && Chosen(current)[code] == byCode[code]
  {
    hide ValueCode;
    if current != [] {
      ChosenIsDrawn(current[..|current| - 1], byCode);
    }
  }

  /** The first matching option is active, so an active one of that code is offered. */
  lemma {:induction false} AcceptedOptionIsOffered(options: seq<AttributeOption>, a: ResourceAttribute, raw: string)
    requires HasOption(options, BindingCode(a), SetKey(a), raw) && OptionActive(options, BindingCode(a), SetKey(a), raw)
    ensures exists o :: o in Filter(options, Offered(a)) && o.code == raw
  {
    hide BindingCode, SetKey, CanonicalAttribute, CanonicalOptionSet, Filter;
    var o := FirstOption(options, BindingCode(a), SetKey(a), raw);
    assert Offered(a)(o);
  }

  lemma {:induction false} FirstOption(options: seq<AttributeOption>, code: string, set_: string, raw: string) returns (o: AttributeOption)
    requires HasOption(options, code, set_, raw) && OptionActive(options, code, set_, raw)
    ensures o in options && IsOptionOf(o, code, set_, raw) && o.active
  {
    hide IsOptionOf;
    if IsOptionOf(options[0], code, set_, raw) {
      o := options[0];
    } else {
      var p :| p in options && IsOptionOf(p, code, set_, raw);
      assert p in options[1..];
      o := FirstOption(options[1..], code, set_, raw);
    }
  }

  /** A relevant relation whose two ends have values leaves the accepted option of either end
      open, whatever else the relation itself says. */
  lemma CoherentPairIsAllowed(c: ResourceCatalog, bound: map<string, ResourceAttribute>, byCode: map<string, AttributeValue>,
      r: AttributeOptionRelation, current: seq<AttributeValue>, code: string)
    requires NoSeparator(bound) && RelationsCohere(c.relations, bound, byCode) && DrawnFrom(current, byCode)
    requires r in c.relations && Relevant(r, bound)
    requires code in byCode && code in bound
    requires var from, to := CanonicalAttribute(r.fromAttribute), CanonicalAttribute(r.toAttribute);
      (to == code && from in Chosen(current)) || (from == code && to in Chosen(current))
    ensures byCode[code].optionCode in AllowedBy(c.relations, SetKey(bound[code]), code, Chosen(current))
  {
    hide SetKey, CanonicalAttribute, CanonicalOptionSet, ValueCode, Chosen, FirstPart, SecondPart;
    var from, to := CanonicalAttribute(r.fromAttribute), CanonicalAttribute(r.toAttribute);
    ChosenIsDrawn(current, byCode);
    PartsOfJoin(from, to);
    assert GroupCoheres(c.relations, bound, byCode, GroupKey(r));
    var q :| q in c.relations && Relevant(q, bound) && GroupKey(q) == GroupKey(r) && Admits(q, byCode[from], byCode[to]);
    JoinInjective(CanonicalAttribute(q.fromAttribute), CanonicalAttribute(q.toAttribute), from, to);
    assert byCode[code].optionCode in OfferedBy(q, SetKey(bound[code]), code, Chosen(current));
    AllowedMember(c.relations, SetKey(bound[code]), code, Chosen(current), byCode[code].optionCode);
  }

  /** The accepted option survives the narrowing by any of the other accepted values. */
  lemma AcceptedOptionStaysValid(c: ResourceCatalog, bound: map<string, ResourceAttribute>, byCode: map<string, AttributeValue>,
      current: seq<AttributeValue>, code: string)
    requires NoSeparator(bound) && RelationsStayInScope(c.relations, bound)
    requires RelationsCohere(c.relations, bound, byCode) && DrawnFrom(current, byCode)
    requires code in byCode && code in bound && BindingCode(bound[code]) == code
    requires HasOption(c.options, code, SetKey(bound[code]), byCode[code].optionCode)
    requires OptionActive(c.options, code, SetKey(bound[code]), byCode[code].optionCode)
    ensures exists o :: o in ValidOptionsOf(c, bound[code], current) && o.code == byCode[code].optionCode
  {
    hide BindingCode, SetKey, CanonicalAttribute, CanonicalOptionSet, ValueCode, Chosen, AllowedBy, Offered;
    hide RelationsCohere, HasOption, OptionActive, IsOptionOf;
    var a, raw := bound[code], byCode[code].optionCode;
    AcceptedOptionIsOffered(c.options, a, raw);
    var o :| o in OptionsOf(c, a) && o.code == raw;
    var allowed := AllowedBy(c.relations, SetKey(a), code, Chosen(current));
    if x :| x in allowed {
      AllowedMember(c.relations, SetKey(a), code, Chosen(current), x);
      var r :| r in c.relations && x in OfferedBy(r, SetKey(a), code, Chosen(current));
      CoherentPairIsAllowed(c, bound, byCode, r, current, code);
      assert CodeIn(allowed)(o);
    }
  }

  /** Every controlled option of an accepted resource is among the valid options of its winning
      binding given any of the accepted values, under active semantics, when codes hold no "|" and
      relations stay within the scope's option sets. */
  lemma WriterOptionsAreValidOptions(c: ResourceCatalog, scope: ResourceScope, unit: string, values: seq<AttributeValue>,
      current: seq<AttributeValue>, code: string)
    requires Accepts(c, scope, unit, values, true) && ActiveSemantics(c)
    requires var bound := Bindings(c.attributes, CanonicalScope(scope));
      && NoSeparator(bound) && RelationsStayInScope(c.relations, bound)
      && code in ByCode(c, bound, values) && ByCode(c, bound, values)[code].typ == ControlledOption
      && DrawnFrom(current, ByCode(c, bound, values))
    ensures var bound := Bindings(c.attributes, CanonicalScope(scope));
      code in bound && exists o :: o in ValidOptionsOf(c, bound[code], current) && o.code == ByCode(c, bound, values)[code].optionCode
  {
    hide CanonicalScope, Bindings, ByCode, ValuesFit, RelationsCohere, ModesHold, ScopeAndUnitDefined, DrawnFrom;
    hide NoSeparator, RelationsStayInScope, UnitActive, PolicyActive, ClassOf, FamilyOf, TypeOf, Relevant, BindingCode, ValidOptionsOf;
    var s := CanonicalScope(scope);
    var bound := Bindings(c.attributes, s);
    var byCode := ByCode(c, bound, values);
    KeysAreBound(c, bound, values);
    ByCodeIsFiled(c, bound, values);
    BoundIsListed(c, s, code);
    FiledOptionExists(c, bound, byCode, code);
    assert BindingActive(c, code, bound[code], byCode);
    AcceptedOptionStaysValid(c, bound, byCode, current, code);
  }

  lemma FiledOptionExists(c: ResourceCatalog, bound: map<string, ResourceAttribute>, byCode: map<string, AttributeValue>, code: string)
    requires FiledCanonical(c, bound, byCode) && code in byCode && byCode[code].typ == ControlledOption
    requires code in bound && BindingCode(bound[code]) == code
    ensures HasOption(c.options, code, SetKey(bound[code]), byCode[code].optionCode)
  {
    hide HasOption, BindingCode, SetKey, ValueCode;
  }

  // ----- the converse: open options the writer refuses -----

  predicate InGroup(r: AttributeOptionRelation, from: string, to: string, set_: string) {
    CanonicalAttribute(r.fromAttribute) == from && CanonicalAttribute(r.toAttribute) == to && CanonicalOptionSet(r.optionSet) == set_
  }

  predicate Touches(r: AttributeOptionRelation, code: string) {
    CanonicalAttribute(r.fromAttribute) == code || CanonicalAttribute(r.toAttribute) == code
  }

  /** The relations of the set that touch either code all run from one to the other, and there is one. */
  predicate SoleGroup(relations: seq<AttributeOptionRelation>, from: string, to: string, set_: string) {
    && from != to && (exists r :: r in relations && InGroup(r, from, to, set_))
    && (forall r :: r in relations && CanonicalOptionSet(r.optionSet) == set_ && (Touches(r, from) || Touches(r, to)) ==> InGroup(r, from, to, set_))
  }

  /** The evaluator leaves the option open. */
  predicate LeftOpen(relations: seq<AttributeOptionRelation>, set_: string, code: string, chosen: map<string, AttributeValue>, option: string) {
    var allowed := AllowedBy(relations, set_, code, chosen);
    allowed == {} || option in allowed
  }

  predicate Related(relations: seq<AttributeOptionRelation>, from: string, to: string, set_: string, x: string, y: string) {
    exists r :: r in relations && InGroup(r, from, to, set_) && r.fromOption == x && r.toOption == y
  }

  lemma OpenOrNothing(relations: seq<AttributeOptionRelation>, set_: string, code: string, chosen: map<string, AttributeValue>, option: string)
    ensures LeftOpen(relations, set_, code, chosen, option) <==>
      (forall r, o :: r in relations ==> o !in OfferedBy(r, set_, code, chosen)) ||
      exists r :: r in relations && option in OfferedBy(r, set_, code, chosen)
  {
    hide OfferedBy, AllowedBy;
    var allowed := AllowedBy(relations, set_, code, chosen);
    AllowedMember(relations, set_, code, chosen, option);
    if allowed == {} {
      forall r, o | r in relations ensures o !in OfferedBy(r, set_, code, chosen) { AllowedMember(relations, set_, code, chosen, o); }
    } else {
      var o :| o in allowed;
      AllowedMember(relations, set_, code, chosen, o);
      var r :| r in relations && o in OfferedBy(r, set_, code, chosen);
    }
  }

  /** What leaves the option open does not depend on the group: no relation offers anything at the code,
      or one outside the group offers the option. */
  predicate OpenOutside(relations: seq<AttributeOptionRelation>, from: string, to: string, set_: string,
      code: string, chosen: map<string, AttributeValue>, option: string) {
    || (forall r, o :: r in relations ==> o !in OfferedBy(r, set_, code, chosen))
    || exists r :: r in relations && !InGroup(r, from, to, set_) && option in OfferedBy(r, set_, code, chosen)
  }

  /** A relation of the group offers a chosen option at one end only if it pairs both chosen options. */
  lemma GroupOffersPairs(r: AttributeOptionRelation, from: string, to: string, set_: string, chosen: map<string, AttributeValue>)
    requires from != to && from in chosen && to in chosen && InGroup(r, from, to, set_)
    ensures var x, y := chosen[from].optionCode, chosen[to].optionCode;
      && (y in OfferedBy(r, set_, to, chosen) <==> r.fromOption == x && r.toOption == y)
      && (x in OfferedBy(r, set_, from, chosen) <==> r.fromOption == x && r.toOption == y)
  {
    hide CanonicalAttribute, CanonicalOptionSet;
  }

  lemma OpenUnrelatedOutside(relations: seq<AttributeOptionRelation>, from: string, to: string, set_: string, chosen: map<string, AttributeValue>, code: string)
    requires from != to && from in chosen && to in chosen && (code == from || code == to)
    requires !Related(relations, from, to, set_, chosen[from].optionCode, chosen[to].optionCode)
    ensures LeftOpen(relations, set_, code, chosen, chosen[code].optionCode) <==> OpenOutside(relations, from, to, set_, code, chosen, chosen[code].optionCode)
  {
    hide InGroup, LeftOpen, OfferedBy;
    OpenOrNothing(relations, set_, code, chosen, chosen[code].optionCode);
    forall r | r in relations && InGroup(r, from, to, set_) ensures chosen[code].optionCode !in OfferedBy(r, set_, code, chosen) {
      GroupOffersPairs(r, from, to, set_, chosen);
    }
  }

  /** The evaluator leaves both chosen options open although no relation of the group pairs them, exactly
      when none does and each end is either offered nothing at all or offered its option from outside the
      group. */
  lemma OpenButUnrelatedIff(relations: seq<AttributeOptionRelation>, from: string, to: string, set_: string, chosen: map<string, AttributeValue>)
    requires from != to && from in chosen && to in chosen
    ensures var x, y := chosen[from].optionCode, chosen[to].optionCode;
      LeftOpen(relations, set_, to, chosen, y) && LeftOpen(relations, set_, from, chosen, x) && !Related(relations, from, to, set_, x, y)
      <==> !Related(relations, from, to, set_, x, y) && OpenOutside(relations, from, to, set_, to, chosen, y) && OpenOutside(relations, from, to, set_, from, chosen, x)
  {
    hide Related, LeftOpen, OpenOutside;
    if !Related(relations, from, to, set_, chosen[from].optionCode, chosen[to].optionCode) {
      OpenUnrelatedOutside(relations, from, to, set_, chosen, to);
      OpenUnrelatedOutside(relations, from, to, set_, chosen, from);
    }
  }

  /** What a sole group offers at its ends. */
  lemma SoleGroupOffers(r: AttributeOptionRelation, relations: seq<AttributeOptionRelation>, from: string, to: string, set_: string,
      chosen: map<string, AttributeValue>, o: string)
    requires SoleGroup(relations, from, to, set_) && from in chosen && to in chosen && r in relations
    ensures o in OfferedBy(r, set_, to, chosen) <==> InGroup(r, from, to, set_) && r.fromOption == chosen[from].optionCode && r.toOption == o
    ensures o in OfferedBy(r, set_, from, chosen) <==> InGroup(r, from, to, set_) && r.toOption == chosen[to].optionCode && r.fromOption == o
  {
    hide CanonicalAttribute, CanonicalOptionSet;
  }

  lemma SoleGroupOutside(relations: seq<AttributeOptionRelation>, from: string, to: string, set_: string, chosen: map<string, AttributeValue>)
    requires SoleGroup(relations, from, to, set_) && from in chosen && to in chosen
    ensures OpenOutside(relations, from, to, set_, to, chosen, chosen[to].optionCode) <==>
      forall r :: r in relations && InGroup(r, from, to, set_) ==> r.fromOption != chosen[from].optionCode
    ensures OpenOutside(relations, from, to, set_, from, chosen, chosen[from].optionCode) <==>
      forall r :: r in relations && InGroup(r, from, to, set_) ==> r.toOption != chosen[to].optionCode
  {
    hide InGroup, SoleGroup, OfferedBy;
    forall r, o | r in relations
      ensures o in OfferedBy(r, set_, to, chosen) <==> InGroup(r, from, to, set_) && r.fromOption == chosen[from].optionCode && r.toOption == o
      ensures o in OfferedBy(r, set_, from, chosen) <==> InGroup(r, from, to, set_) && r.toOption == chosen[to].optionCode && r.fromOption == o
    {
      SoleGroupOffers(r, relations, from, to, set_, chosen, o);
    }
    if r :| r in relations && InGroup(r, from, to, set_) && r.fromOption == chosen[from].optionCode {
      assert r.toOption in OfferedBy(r, set_, to, chosen);
    }
    if r :| r in relations && InGroup(r, from, to, set_) && r.toOption == chosen[to].optionCode {
      assert r.fromOption in OfferedBy(r, set_, from, chosen);
    }
  }

  /** With a single group, exactly when the group knows neither option at its end. */
  lemma SoleGroupOpenIff(relations: seq<AttributeOptionRelation>, from: string, to: string, set_: string, chosen: map<string, AttributeValue>)
    requires SoleGroup(relations, from, to, set_) && from in chosen && to in chosen
    ensures var x, y := chosen[from].optionCode, chosen[to].optionCode;
      LeftOpen(relations, set_, to, chosen, y) && LeftOpen(relations, set_, from, chosen, x) && !Related(relations, from, to, set_, x, y)
      <==> forall r :: r in relations && InGroup(r, from, to, set_) ==> r.fromOption != x && r.toOption != y
  {
    OpenButUnrelatedIff(relations, from, to, set_, chosen);
    SoleGroupOutside(relations, from, to, set_, chosen);
    hide InGroup, LeftOpen, OpenOutside;
  }

  predicate Listed(options: seq<AttributeOption>, code: string) { exists o :: o in options && o.code == code }

  /** An option is listed as valid exactly when it is offered and left open. */
  lemma ValidIffLeftOpen(c: ResourceCatalog, a: ResourceAttribute, current: seq<AttributeValue>, option: string)
    ensures Listed(ValidOptionsOf(c, a, current), option) <==>
      Listed(OptionsOf(c, a), option) && LeftOpen(c.relations, SetKey(a), BindingCode(a), Chosen(current), option)
  {
    hide Offered, AllowedBy, Chosen, SetKey, BindingCode;
  }

  /** Of two chosen options that are offered, both are listed as valid although the group does not pair
      them, exactly under the condition above. */
  lemma ListedButUnrelatedIff(c: ResourceCatalog, a: ResourceAttribute, b: ResourceAttribute, current: seq<AttributeValue>)
    requires var from, to, chosen := BindingCode(a), BindingCode(b), Chosen(current);
      && from != to && SetKey(a) == SetKey(b) && from in chosen && to in chosen
      && Listed(OptionsOf(c, a), chosen[from].optionCode) && Listed(OptionsOf(c, b), chosen[to].optionCode)
    ensures var from, to, set_, chosen := BindingCode(a), BindingCode(b), SetKey(a), Chosen(current);
      var x, y := chosen[from].optionCode, chosen[to].optionCode;
      Listed(ValidOptionsOf(c, b, current), y) && Listed(ValidOptionsOf(c, a, current), x) && !Related(c.relations, from, to, set_, x, y)
      <==>
        && !Related(c.relations, from, to, set_, x, y)
        && OpenOutside(c.relations, from, to, set_, to, chosen, y) && OpenOutside(c.relations, from, to, set_, from, chosen, x)
  {
    hide BindingCode, SetKey, Chosen, Listed, ValidOptionsOf, OptionsOf, LeftOpen, OpenOutside, Related;
    var from, to, chosen := BindingCode(a), BindingCode(b), Chosen(current);
    ValidIffLeftOpen(c, a, current, chosen[from].optionCode);
    ValidIffLeftOpen(c, b, current, chosen[to].optionCode);
    OpenButUnrelatedIff(c.relations, from, to, SetKey(a), chosen);
  }

  /** With a single relation in the group, any two options it does not mention stay open, and no relation
      pairs them. */
  lemma OthersStayOpen(r: AttributeOptionRelation, from: string, to: string, set_: string, chosen: map<string, AttributeValue>)
    requires InGroup(r, from, to, set_) && from != to && from in chosen && to in chosen
    requires chosen[from].optionCode != r.fromOption && chosen[to].optionCode != r.toOption
    ensures LeftOpen([r], set_, to, chosen, chosen[to].optionCode) && LeftOpen([r], set_, from, chosen, chosen[from].optionCode)
    ensures !Related([r], from, to, set_, chosen[from].optionCode, chosen[to].optionCode)
  {
    assert r in [r] && SoleGroup([r], from, to, set_);
    hide InGroup, SoleGroup, LeftOpen;
    SoleGroupOpenIff([r], from, to, set_, chosen);
  }

  /** Unrelated is what the writer refuses. */
  lemma UnrelatedIsRefused(relations: seq<AttributeOptionRelation>, bound: map<string, ResourceAttribute>, byCode: map<string, AttributeValue>,
      from: string, to: string, r: AttributeOptionRelation)
    requires NoSeparator(bound) && from in bound && to in bound && from in byCode && to in byCode
    requires SetKey(bound[from]) == SetKey(bound[to]) && r in relations && InGroup(r, from, to, SetKey(bound[from]))
    ensures GroupCoheres(relations, bound, byCode, GroupKey(r)) <==>
      Related(relations, from, to, SetKey(bound[from]), byCode[from].optionCode, byCode[to].optionCode)
  {
    hide CanonicalAttribute, CanonicalOptionSet, SetKey, FirstPart, SecondPart;
    PartsOfJoin(from, to);
    var set_ := SetKey(bound[from]);
    forall q | q in relations && Relevant(q, bound) && GroupKey(q) == GroupKey(r) ensures InGroup(q, from, to, set_) {
      JoinInjective(CanonicalAttribute(q.fromAttribute), CanonicalAttribute(q.toAttribute), from, to);
    }
  }

  /** The two ends of a relation, of one option set with it. */
  predicate Between(r: AttributeOptionRelation, bound: map<string, ResourceAttribute>, from: string, to: string) {
    && from in bound && to in bound && InGroup(r, from, to, CanonicalOptionSet(bound[from].optionSet))
    && CanonicalOptionSet(bound[to].optionSet) == CanonicalOptionSet(bound[from].optionSet)
  }

  /** The writer accepts the relations of its values exactly when every two values at the ends of a relation
      of one set are related in it. */
  lemma RelationsMean(relations: seq<AttributeOptionRelation>, bound: map<string, ResourceAttribute>, byCode: map<string, AttributeValue>)
    requires NoSeparator(bound)
    ensures RelationsCohere(relations, bound, byCode) <==>
      forall r, from, to :: r in relations && Between(r, bound, from, to) && from in byCode && to in byCode ==>
        Related(relations, from, to, CanonicalOptionSet(bound[from].optionSet), byCode[from].optionCode, byCode[to].optionCode)
  {
    hide CanonicalAttribute, CanonicalOptionSet, Related;
    forall r, from, to | r in relations && Between(r, bound, from, to)
      ensures Relevant(r, bound)
      ensures GroupCoheres(relations, bound, byCode, GroupKey(r)) <==>
        (from in byCode && to in byCode ==> Related(relations, from, to, CanonicalOptionSet(bound[from].optionSet), byCode[from].optionCode, byCode[to].optionCode))
    {
      PartsOfJoin(from, to);
      hide FirstPart, SecondPart;
      if from in byCode && to in byCode { UnrelatedIsRefused(relations, bound, byCode, from, to, r); }
    }
    forall r | r in relations && Relevant(r, bound)
      ensures Between(r, bound, CanonicalAttribute(r.fromAttribute), CanonicalAttribute(r.toAttribute)) {}
    hide Between, Relevant, GroupCoheres, GroupKey;
  }
}

/** What each entry of an evaluation says, in terms of the catalog's rows. */
module EvaluatorMeaning {
  import opened Text
  import opened Sorting
  import opened Catalog
  import opened Resource
  import opened ResourceMeaning
  import opened Evaluator
  import opened EvaluatorLaws

  /** An active presentation field of exactly this scope that names the code. */
  predicate Places(f: PresentationField, s: ResourceScope, code: string) {
    && f.active && Canonical(f.classCode) == s.classCode && Canonical(f.familyCode) == s.familyCode && Canonical(f.typeCode) == s.typeCode
    && CanonicalAttribute(f.attributeCode) == code
  }

  /** The largest position at which a field places the code, if any does. */
  predicate PlacedAt(fields: seq<PresentationField>, s: ResourceScope, code: string, position: Option<int>) {
    match position
    case None => forall f :: f in fields ==> !Places(f, s, code)
    case Some(p) =>
      && (exists f :: f in fields && Places(f, s, code) && f.position == p)
      && forall f :: f in fields && Places(f, s, code) ==> f.position <= p
  }

  lemma PositionMeans(c: ResourceCatalog, s: ResourceScope, code: string)
    ensures PlacedAt(c.presentationFields, s, code, PositionOf(c, s, code))
  {
    hide Canonical, CanonicalAttribute;
    var own := Filter(c.presentationFields, FieldsOf(s));
    LargestIsLargest(own, code);
    assert forall f :: f in c.presentationFields && Places(f, s, code) ==> f in own && Positioned(f, code);
    assert forall f :: f in own && Positioned(f, code) ==> f in c.presentationFields && Places(f, s, code);
    hide Places, Positioned, LargestPosition, FieldsOf;
  }

  /** What one relation offers at a code: the option opposite to one that is chosen. */
  predicate Offers(r: AttributeOptionRelation, set_: string, code: string, chosen: map<string, AttributeValue>, option: string) {
    && CanonicalOptionSet(r.optionSet) == set_
    && var from, to := CanonicalAttribute(r.fromAttribute), CanonicalAttribute(r.toAttribute);
      || (to == code && from in chosen && chosen[from].optionCode == r.fromOption && option == r.toOption)
      || (from == code && to in chosen && chosen[to].optionCode == r.toOption && option == r.fromOption)
  }

  /** An active option of the attribute and its set, where either no relation offers anything at the
      attribute or some relation offers this option. */
  ghost predicate MayChoose(c: ResourceCatalog, a: ResourceAttribute, chosen: map<string, AttributeValue>, o: AttributeOption) {
    var code, set_ := CanonicalAttribute(a.definition.code), CanonicalOptionSet(a.optionSet);
    && o in c.options && o.active && CanonicalAttribute(o.attributeCode) == code && CanonicalOptionSet(o.optionSet) == set_
    && ((forall r, x :: r in c.relations ==> !Offers(r, set_, code, chosen, x)) || exists r :: r in c.relations && Offers(r, set_, code, chosen, o.code))
  }

  lemma ListedIsOfferedAndOpen(c: ResourceCatalog, a: ResourceAttribute, current: seq<AttributeValue>, o: AttributeOption)
    ensures o in ValidOptionsOf(c, a, current) <==>
      o in c.options && Offered(a)(o) && LeftOpen(c.relations, SetKey(a), BindingCode(a), Chosen(current), o.code)
  {
    hide Offered, AllowedBy, Chosen, SetKey, BindingCode;
    var allowed := AllowedBy(c.relations, SetKey(a), BindingCode(a), Chosen(current));
    assert o in OptionsOf(c, a) <==> o in c.options && Offered(a)(o);
    assert o in Filter(OptionsOf(c, a), CodeIn(allowed)) <==> o in OptionsOf(c, a) && o.code in allowed;
  }

  /** Exactly the options that may be chosen are listed. */
  lemma ListedOptionsMean(c: ResourceCatalog, a: ResourceAttribute, current: seq<AttributeValue>, o: AttributeOption)
    ensures o in ValidOptionsOf(c, a, current) <==> MayChoose(c, a, Chosen(current), o)
  {
    hide CanonicalAttribute, CanonicalOptionSet, Chosen, AllowedBy, ValidOptionsOf, LeftOpen;
    ListedIsOfferedAndOpen(c, a, current, o);
    var code, set_, chosen := CanonicalAttribute(a.definition.code), CanonicalOptionSet(a.optionSet), Chosen(current);
    OpenOrNothing(c.relations, set_, code, chosen, o.code);
    forall r, x ensures x in OfferedBy(r, set_, code, chosen) <==> Offers(r, set_, code, chosen, x) {}
    assert Offered(a)(o) <==> o.active && CanonicalAttribute(o.attributeCode) == code && CanonicalOptionSet(o.optionSet) == set_;
    hide OfferedBy, Offers, Offered;
  }

  predicate LastFor(current: seq<AttributeValue>, code: string, i: int) {
    && 0 <= i < |current| && CanonicalAttribute(current[i].attributeCode) == code
    && forall j :: i < j < |current| ==> CanonicalAttribute(current[j].attributeCode) != code
  }

  /** The last value given for a code is the chosen one. */
  lemma {:induction false} ChosenIsLast(current: seq<AttributeValue>, code: string) returns (i: nat)
    requires code in Chosen(current)
    ensures LastFor(current, code, i) && Chosen(current)[code] == current[i]
  {
    hide CanonicalAttribute;
    var n := |current| - 1;
    if CanonicalAttribute(current[n].attributeCode) == code {
      i := n;
    } else {
      i := ChosenIsLast(current[..n], code);
    }
  }

  lemma {:induction false} ChosenHasAll(current: seq<AttributeValue>, i: nat)
    requires i < |current|
    ensures CanonicalAttribute(current[i].attributeCode) in Chosen(current)
  {
    hide CanonicalAttribute;
    if i < |current| - 1 { ChosenHasAll(current[..|current| - 1], i); }
  }

  /** The source a binding comes from. */
  predicate ComesFrom(a: ResourceAttribute, s: ResourceScope, level: string, code: string) {
    if a.typeCode == "" then level == "FAMILY" && code == s.familyCode else level == "TYPE" && code == a.typeCode
  }

  /** Every entry of a successful evaluation describes an applicable binding: its position is the largest
      at which an active field of the exact scope places it, it names its source, its first firing rule -
      or else the binding - decides its effect, and it lists exactly the options that are left open by
      the canonical values. */
  lemma EntryMeans(c: ResourceCatalog, scope: ResourceScope, current: seq<AttributeValue>, x: EffectiveAttribute)
    requires Evaluation(c, scope, current).Ok? && x in Evaluation(c, scope, current).value
    ensures var s := CanonicalScope(scope);
      var values := CanonicalList(c, Bindings(c.attributes, s), current);
      var a, chosen := x.attribute, Chosen(values);
      && a in c.attributes && ScopeMatches(s, a.classCode, a.familyCode, a.typeCode)
      && PlacedAt(c.presentationFields, s, CanonicalAttribute(a.definition.code), x.position)
      && ComesFrom(a, s, x.sourceLevel, x.sourceCode)
      && (forall i :: FirstFiring(a.rules, chosen, i) ==> x.effect == Effect(a.rules[i].mode, a.rules[i].identityParticipates, a.rules[i].notApplicable))
      && ((forall i :: 0 <= i < |a.rules| ==> !Fires(a.rules[i], chosen)) ==>
            x.effect == Effect(if a.mode == Conditional then Required else a.mode, a.identityParticipates, false))
      && (forall o :: o in x.options <==> MayChoose(c, a, chosen, o))
  {
    EvaluationEntries(c, scope, current);
    hide Evaluation, CanonicalScope, Bindings, ValuesFit, CanonicalList, Effective, PositionOf, ValidOptionsOf, CanonicalAttribute, ScopeMatches, Fires, FirstFiring, PlacedAt, Chosen;
    var s := CanonicalScope(scope);
    var values := CanonicalList(c, Bindings(c.attributes, s), current);
    PositionMeans(c, s, CanonicalAttribute(x.attribute.definition.code));
    EffectiveMeans(x.attribute, Chosen(values));
    hide MayChoose;
    forall o ensures o in x.options <==> MayChoose(c, x.attribute, Chosen(values), o) {
      ListedOptionsMean(c, x.attribute, values, o);
    }
  }
}

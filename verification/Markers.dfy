/** Accepted values that read like the not-applicable marker.  Rehydration and reactivation set them
    aside; this is exactly when that goes unnoticed. */
module Markers {
  import opened Text
  import opened Sorting
  import opened Catalog
  import opened Resource
  import opened ResourceBuild
  import opened ResourceLaws
  import opened Identity
  import opened Rehydration

  /** The values without the markers. */
  function Unmarked(values: map<string, AttributeValue>): map<string, AttributeValue> {
    map code | code in values && Applicable(values[code]) :: values[code]
  }

  lemma {:induction false} PresentUnmarked(codes: seq<string>, values: map<string, AttributeValue>)
    ensures Filter(Present(codes, values), Applicable) == Present(codes, Unmarked(values))
  {
    hide Applicable;
    if codes != [] {
      var n := |codes| - 1;
      var before := Present(codes[..n], values);
      PresentUnmarked(codes[..n], values);
      if codes[n] in values {
        FilterConcat(before, [values[codes[n]]], Applicable);
        FilterOne(values[codes[n]], Applicable);
      } else {
        assert Present(codes, values) == before;
      }
    }
  }

  /** No rule fires on a marker. */
  predicate RulesIgnoreMarkers(bound: map<string, ResourceAttribute>, values: map<string, AttributeValue>) {
    forall code, r :: code in bound && r in bound[code].rules ==>
      var when_ := CanonicalAttribute(r.whenAttribute);
      when_ in values && Marker(values[when_]) ==> !RuleFires(r, values)
  }

  lemma {:induction false} FirstRuleUnmarked(rules: seq<AttributeRule>, values: map<string, AttributeValue>)
    requires forall r :: r in rules ==>
      var when_ := CanonicalAttribute(r.whenAttribute);
      when_ in values && Marker(values[when_]) ==> !RuleFires(r, values)
    ensures FirstRule(rules, Unmarked(values)) == FirstRule(rules, values)
  {
    hide CanonicalAttribute, Canonical;
    if rules != [] {
      assert rules[0] in rules;
      assert forall r :: r in rules[1..] ==> r in rules;
      FirstRuleUnmarked(rules[1..], values);
    }
  }

  lemma EffectUnmarked(bound: map<string, ResourceAttribute>, values: map<string, AttributeValue>, code: string)
    requires RulesIgnoreMarkers(bound, values) && code in bound
    ensures Effective(bound[code], Unmarked(values)) == Effective(bound[code], values)
  {
    FirstRuleUnmarked(bound[code].rules, values);
  }

  /** No marker stands for a required value. */
  predicate MarkersOptional(bound: map<string, ResourceAttribute>, values: map<string, AttributeValue>) {
    forall code :: code in bound && code in values && Marker(values[code]) ==> Effective(bound[code], values).mode != Required
  }

  /** No marker is part of the identity. */
  predicate MarkersOutside(bound: map<string, ResourceAttribute>, values: map<string, AttributeValue>) {
    forall code :: code in bound && code in values && Marker(values[code]) ==> !Effective(bound[code], values).participates
  }

  lemma ModesUnmarked(bound: map<string, ResourceAttribute>, values: map<string, AttributeValue>)
    requires ModesHold(bound, values) && RulesIgnoreMarkers(bound, values)
    ensures ModesHold(bound, Unmarked(values)) <==> MarkersOptional(bound, values)
  {
    hide RulesIgnoreMarkers, Effective;
    forall code | code in bound
      ensures ModeHolds(Effective(bound[code], Unmarked(values)), code in Unmarked(values)) <==>
        (code in values && Marker(values[code]) ==> Effective(bound[code], values).mode != Required)
    {
      EffectUnmarked(bound, values, code);
    }
  }

  /** The identity triples are the same exactly when no marker is among them. */
  lemma {:induction false} PartsUnmarked(codes: seq<string>, bound: map<string, ResourceAttribute>, values: map<string, AttributeValue>)
    requires RulesIgnoreMarkers(bound, values)
    ensures |Parts(codes, bound, Unmarked(values))| <= |Parts(codes, bound, values)|
    ensures Parts(codes, bound, Unmarked(values)) == Parts(codes, bound, values) <==>
      forall code :: code in codes && code in bound && code in values && Marker(values[code]) ==> !Effective(bound[code], values).participates
    ensures Parts(codes, bound, Unmarked(values)) != Parts(codes, bound, values) ==>
      |Parts(codes, bound, Unmarked(values))| < |Parts(codes, bound, values)|
  {
    hide RulesIgnoreMarkers, Effective, Printed, TypeName;
    if codes != [] {
      var n := |codes| - 1;
      var code := codes[n];
      PartsUnmarked(codes[..n], bound, values);
      assert codes == codes[..n] + [code];
      if code in bound { EffectUnmarked(bound, values, code); }
    }
  }

  lemma RelationsUnmarked(relations: seq<AttributeOptionRelation>, bound: map<string, ResourceAttribute>, values: map<string, AttributeValue>)
    requires RelationsCohere(relations, bound, values)
    ensures RelationsCohere(relations, bound, Unmarked(values))
  {
    hide Relevant, GroupKey;
    forall r | r in relations && Relevant(r, bound) ensures GroupCoheres(relations, bound, Unmarked(values), GroupKey(r)) {
      assert GroupCoheres(relations, bound, values, GroupKey(r));
    }
  }

  lemma ChainUnmarked(c: ResourceCatalog, s: ResourceScope, unit: string, bound: map<string, ResourceAttribute>, values: map<string, AttributeValue>)
    requires ActiveChain(c, s, unit, bound, values)
    ensures ActiveChain(c, s, unit, bound, Unmarked(values))
  {
    hide UnitActive, PolicyActive, Relevant, OptionActive, OptionSetActive, DefinitionActive, ClassOf, FamilyOf, TypeOf;
    forall code | code in bound && ActiveSemantics(c) ensures BindingActive(c, code, bound[code], Unmarked(values)) {
      assert BindingActive(c, code, bound[code], values);
    }
  }

  /** The values left of an accepted resource fit again and file as what is unmarked. */
  lemma RestRefiles(c: ResourceCatalog, bound: map<string, ResourceAttribute>, values: seq<AttributeValue>)
    requires ValuesFit(c, bound, values)
    ensures var byCode, codes := ByCode(c, bound, values), SortedKeys(bound.Keys);
      var rest := Filter(Present(codes, byCode), Applicable);
      ValuesFit(c, bound, rest) && ByCode(c, bound, rest) == Unmarked(byCode)
      && rest == Present(codes, Unmarked(byCode))
  {
    var byCode, codes := ByCode(c, bound, values), SortedKeys(bound.Keys);
    ByCodeIsFiled(c, bound, values);
    KeysAreBound(c, bound, values);
    PresentUnmarked(codes, byCode);
    hide ValuesFit, ByCode, Present, CanonicalValue, ValueCode, Filter;
    FiledFit(c, bound, Unmarked(byCode), codes);
    FiledAgain(c, bound, Unmarked(byCode), codes);
  }

  /** The key of an accepted resource once its markers are set aside. */
  ghost function KeyWithoutMarkers(c: ResourceCatalog, scope: ResourceScope, values: seq<AttributeValue>): string
    requires ValuesFit(c, Bindings(c.attributes, CanonicalScope(scope)), values)
  {
    var s := CanonicalScope(scope);
    var bound := Bindings(c.attributes, s);
    IdentityKey(s, Parts(SortedKeys(bound.Keys), bound, Unmarked(ByCode(c, bound, values))))
  }

  lemma KeyIsSameIff(c: ResourceCatalog, scope: ResourceScope, unit: string, values: seq<AttributeValue>)
    requires ValuesFit(c, Bindings(c.attributes, CanonicalScope(scope)), values)
    requires var bound := Bindings(c.attributes, CanonicalScope(scope)); RulesIgnoreMarkers(bound, ByCode(c, bound, values))
    ensures var bound := Bindings(c.attributes, CanonicalScope(scope));
      KeyWithoutMarkers(c, scope, values) == Built(c, scope, unit, values).identityKey <==> MarkersOutside(bound, ByCode(c, bound, values))
  {
    hide ValuesFit, ByCode, RulesIgnoreMarkers, CanonicalScope, Bindings, IdentityKey, Present, Effective;
    var s := CanonicalScope(scope);
    var bound := Bindings(c.attributes, s);
    var byCode, codes := ByCode(c, bound, values), SortedKeys(bound.Keys);
    PartsUnmarked(codes, bound, byCode);
    KeyDecodes(s, Parts(codes, bound, Unmarked(byCode)), s, Parts(codes, bound, byCode));
    assert forall code :: code in bound ==> code in codes;
  }

  /** The rest of an accepted resource is accepted exactly when it meets its own effective modes, and is
      then that resource without its markers, under the key without them. */
  lemma RestRebuilds(c: ResourceCatalog, scope: ResourceScope, unit: string, values: seq<AttributeValue>, active: bool, later: bool)
    requires Accepts(c, scope, unit, values, active) && (later ==> active)
    ensures var r, bound := Built(c, scope, unit, values), Bindings(c.attributes, CanonicalScope(scope));
      var rest := Filter(r.attributes, Applicable);
      var again := Outcome(c, ScopeOf(r), r.naturalUnit, rest, later);
      && (again.Ok? <==> ModesHold(bound, Unmarked(ByCode(c, bound, values))))
      && (again.Ok? ==> again.value == r.(attributes := rest, identityKey := KeyWithoutMarkers(c, scope, values)))
  {
    var s := CanonicalScope(scope);
    var bound := Bindings(c.attributes, s);
    var byCode := ByCode(c, bound, values);
    CanonicalScopeIdempotent(scope);
    CanonicalIdempotent(unit);
    RestRefiles(c, bound, values);
    RelationsUnmarked(c.relations, bound, byCode);
    if later { ChainUnmarked(c, s, Canonical(unit), bound, byCode); }
    hide ScopeAndUnitDefined, CanonicalScope, Canonical, ValuesFit, ByCode, ActiveChain, RelationsCohere, ModesHold, Bindings;
    hide SortedKeys, Present, Parts, IdentityKey, Filter, Unmarked;
    assert ScopeOf(Built(c, scope, unit, values)) == s;
  }

  /** What is left keeps to its modes and to the resource's key. */
  ghost predicate MarkersUnnoticed(c: ResourceCatalog, scope: ResourceScope, unit: string, values: seq<AttributeValue>)
    requires ValuesFit(c, Bindings(c.attributes, CanonicalScope(scope)), values)
  {
    var bound := Bindings(c.attributes, CanonicalScope(scope));
    ModesHold(bound, Unmarked(ByCode(c, bound, values))) && KeyWithoutMarkers(c, scope, values) == Built(c, scope, unit, values).identityKey
  }

  /** An accepted resource, stored in any order with any not-applicable markers added, can be read back
      or reactivated under its key exactly when setting its own marker-like values aside leaves its modes
      met and its key unchanged. */
  lemma MarkedResourceReturnsIff(c: ResourceCatalog, scope: ResourceScope, unit: string, values: seq<AttributeValue>,
      stored: seq<AttributeValue>, active: bool, later: bool)
    requires Accepts(c, scope, unit, values, active) && (later ==> active)
    requires multiset(Filter(stored, Applicable)) == multiset(Filter(Built(c, scope, unit, values).attributes, Applicable))
    ensures var r := Built(c, scope, unit, values);
      var again := Outcome(c, ScopeOf(r), r.naturalUnit, Filter(stored, Applicable), later);
      && (again.Ok? && again.value.identityKey == r.identityKey <==> MarkersUnnoticed(c, scope, unit, values))
      && (again.Ok? && again.value.identityKey == r.identityKey ==> again.value == r.(attributes := Filter(r.attributes, Applicable)))
  {
    RestRebuilds(c, scope, unit, values, active, later);
    hide Accepts, Built, Outcome, Filter, ModesHold, KeyWithoutMarkers, ValuesFit, ByCode, Bindings, CanonicalScope, Unmarked;
    var r := Built(c, scope, unit, values);
    OrderOfValuesIsImmaterial(c, ScopeOf(r), r.naturalUnit, Filter(r.attributes, Applicable), Filter(stored, Applicable), later);
  }

  /** Filtering keeps an order by distinct codes. */
  lemma FilterKeepsCodes(attributes: seq<AttributeValue>)
    requires Sorted(attributes, CodeAtMost) && Separates(attributes, CodeAtMost)
    ensures var rest := Filter(attributes, Applicable);
      Sorted(rest, CodeAtMost) && Separates(rest, CodeAtMost) && forall v :: v in rest ==> Applicable(v)
  {
    hide CodeAtMost, Applicable, Sorted;
    FilterSorted(attributes, Applicable, CodeAtMost);
  }

  lemma MarkersPutBack(rest: seq<AttributeValue>, stored: seq<AttributeValue>, out: seq<AttributeValue>)
    requires multiset(out) == multiset(rest + Filter(stored, Marker)) && forall v :: v in rest ==> Applicable(v)
    ensures multiset(Filter(out, Marker)) == multiset(Filter(stored, Marker))
  {
    var markers := Filter(stored, Marker);
    assert forall v :: v in rest ==> !Marker(v);
    assert forall v :: v in markers ==> Marker(v);
    hide Marker, Applicable, Filter;
    FilterRearranged(out, rest + markers, Marker);
    FilterConcat(rest, markers, Marker);
    FilterNone(rest, Marker);
    FilterAll(markers, Marker);
    assert [] + markers == markers;
  }

  /** Round trip for every accepted resource: stored in any order with any markers added, it rehydrates
      exactly when its marker-like values go unnoticed, and every result the unstable sort allows has its
      scope, unit and key, its applicable attributes, and exactly the stored markers, by code. */
  lemma AcceptedResourceRehydratesIff(c: ResourceCatalog, scope: ResourceScope, unit: string, values: seq<AttributeValue>, active: bool,
      snap: Snapshot, out: Resource)
    requires Accepts(c, scope, unit, values, active)
    requires var r := Built(c, scope, unit, values);
      && snap.id > 0 && snap.scope == ScopeOf(r) && snap.naturalUnit == r.naturalUnit && snap.identityKey == r.identityKey
      && multiset(Filter(snap.attributes, Applicable)) == multiset(Filter(r.attributes, Applicable))
    ensures var built := Outcome(c, snap.scope, snap.naturalUnit, Filter(snap.attributes, Applicable), false);
      built.Ok? && built.value.identityKey == snap.identityKey <==> MarkersUnnoticed(c, scope, unit, values)
    ensures var r := Built(c, scope, unit, values);
      Rehydrated(c, snap, out) ==>
        && MarkersUnnoticed(c, scope, unit, values)
        && out == r.(id := snap.id, active := snap.active, attributes := out.attributes)
        && Filter(out.attributes, Applicable) == Filter(r.attributes, Applicable)
        && multiset(Filter(out.attributes, Marker)) == multiset(Filter(snap.attributes, Marker))
        && Sorted(out.attributes, CodeAtMost)
  {
    var r := Built(c, scope, unit, values);
    MarkedResourceReturnsIff(c, scope, unit, values, snap.attributes, active, false);
    BuiltAttributesSeparate(c, scope, unit, values);
    hide Accepts, Built, Filter, Outcome, Sorted, Separates, MarkersUnnoticed;
    if Rehydrated(c, snap, out) {
      FilterKeepsCodes(r.attributes);
      RehydratedFrom(c, snap, r.(attributes := Filter(r.attributes, Applicable)), out);
      MarkersPutBack(Filter(r.attributes, Applicable), snap.attributes, out.attributes);
    }
  }

  // ----- where no rule looks at a marker -----

  /** Then a marker goes unnoticed exactly when it stands for no required value and is no part of the
      identity. */
  lemma UnnoticedIff(c: ResourceCatalog, scope: ResourceScope, unit: string, values: seq<AttributeValue>, active: bool)
    requires Accepts(c, scope, unit, values, active)
    requires var bound := Bindings(c.attributes, CanonicalScope(scope)); RulesIgnoreMarkers(bound, ByCode(c, bound, values))
    ensures var bound := Bindings(c.attributes, CanonicalScope(scope));
      MarkersUnnoticed(c, scope, unit, values) <==>
        MarkersOptional(bound, ByCode(c, bound, values)) && MarkersOutside(bound, ByCode(c, bound, values))
  {
    var bound := Bindings(c.attributes, CanonicalScope(scope));
    ModesUnmarked(bound, ByCode(c, bound, values));
    KeyIsSameIff(c, scope, unit, values);
    hide Built, Unmarked, ModesHold, RulesIgnoreMarkers, MarkersOptional, MarkersOutside, KeyWithoutMarkers, ValuesFit, ByCode, Bindings, CanonicalScope;
  }
}

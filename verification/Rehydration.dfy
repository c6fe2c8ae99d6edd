/** Reading a stored resource back, and re-validating it for reactivation. */
module Rehydration {
  import opened Text
  import opened Sorting
  import opened Catalog
  import opened Resource
  import opened ResourceBuild
  import opened ResourceLaws

  const NOT_APPLICABLE := "NOT_APPLICABLE"

  datatype Snapshot = Snapshot(
    id: int, scope: ResourceScope, naturalUnit: string,
    attributes: seq<AttributeValue>, identityKey: string, active: bool)

  predicate Applicable(v: AttributeValue) {
    v.text != NOT_APPLICABLE
  }

  predicate Marker(v: AttributeValue) {
    v.text == NOT_APPLICABLE
  }

  /** The rebuilt resource has the stored key; ID, active flag and markers are put back, and the
      attributes are sorted by code with no promise about ties. */
  ghost predicate Rehydrated(c: ResourceCatalog, snap: Snapshot, r: Resource) {
    var built := Outcome(c, snap.scope, snap.naturalUnit, Filter(snap.attributes, Applicable), false);
    && snap.id > 0 && built.Ok? && built.value.identityKey == snap.identityKey
    && r == built.value.(id := snap.id, active := snap.active, attributes := r.attributes)
    && SortOf(r.attributes, built.value.attributes + Filter(snap.attributes, Marker), CodeAtMost)
  }

  method Keep(values: seq<AttributeValue>, keep: AttributeValue -> bool) returns (kept: seq<AttributeValue>)
    ensures kept == Filter(values, keep)
  {
    kept := [];
    for i := 0 to |values|
      invariant kept == Filter(values[..i], keep)
    {
      assert values[..i + 1][..i] == values[..i];
      if keep(values[i]) { kept := kept + [values[i]]; }
    }
    assert values[..|values|] == values;
  }

  method RehydrateResource(c: ResourceCatalog, snap: Snapshot) returns (r: Result<Resource>)
    ensures r.Ok? ==> Rehydrated(c, snap, r.value)
    ensures r.Err? ==> r.error == Validation
    ensures var built := Outcome(c, snap.scope, snap.naturalUnit, Filter(snap.attributes, Applicable), false);
      r.Ok? <==> snap.id > 0 && built.Ok? && built.value.identityKey == snap.identityKey
  {
    hide Filter, Accepts, ByCode, ValuesFit, Built, ScopeAndUnitDefined, RelationsCohere, ModesHold, Bindings, CanonicalScope;
    if snap.id <= 0 { return Err(Validation); }
    var applicable := Keep(snap.attributes, Applicable);
    var built := NewResource(c, snap.scope, snap.naturalUnit, applicable, false);
    if built.Err? { return Err(built.error); }
    if built.value.identityKey != snap.identityKey { return Err(Validation); }
    var markers := Keep(snap.attributes, Marker);
    var sorted := SortByCode(built.value.attributes + markers);
    return Ok(built.value.(id := snap.id, active := snap.active, attributes := sorted));
  }

  /** The candidate of reactivation: rebuilt under the active checks, with the stored key. */
  method ReactivationCandidate(c: ResourceCatalog, current: Resource) returns (r: Result<Resource>)
    ensures var built := Outcome(c, ScopeOf(current), current.naturalUnit, Filter(current.attributes, Applicable), true);
      r.Ok? <==> built.Ok? && built.value.identityKey == current.identityKey
    ensures r.Ok? ==> r == Outcome(c, ScopeOf(current), current.naturalUnit, Filter(current.attributes, Applicable), true)
    ensures r.Err? ==>
      var built := Outcome(c, ScopeOf(current), current.naturalUnit, Filter(current.attributes, Applicable), true);
      r.error == if built.Ok? then IdentityConflict else ReactivationImpossible
  {
    hide Filter, Accepts, ByCode, ValuesFit, Built, ScopeAndUnitDefined, RelationsCohere, ModesHold, Bindings, CanonicalScope;
    var values := Keep(current.attributes, Applicable);
    var candidate := NewResource(c, ScopeOf(current), current.naturalUnit, values, true);
    if candidate.Err? { return Err(ReactivationImpossible); }
    if candidate.value.identityKey != current.identityKey { return Err(IdentityConflict); }
    return candidate;
  }

  /** The applicable values of the stored list rearrange those of the resource. */
  ghost predicate StoredFor(stored: seq<AttributeValue>, r: Resource) {
    multiset(Filter(stored, Applicable)) == multiset(r.attributes)
  }

  /** Sorting markers in among the attributes leaves the attributes as they were. */
  lemma MarkersAside(attributes: seq<AttributeValue>, markers: seq<AttributeValue>, sorted: seq<AttributeValue>)
    requires forall v :: v in attributes ==> Applicable(v)
    requires forall v :: v in markers ==> !Applicable(v)
    requires Sorted(attributes, CodeAtMost) && Separates(attributes, CodeAtMost)
    requires SortOf(sorted, attributes + markers, CodeAtMost)
    ensures Filter(sorted, Applicable) == attributes
  {
    hide Filter, CodeAtMost, Applicable;
    FilterRearranged(sorted, attributes + markers, Applicable);
    FilterConcat(attributes, markers, Applicable);
    FilterAll(attributes, Applicable);
    FilterNone(markers, Applicable);
    assert attributes + [] == attributes;
    FilterSorted(sorted, Applicable, CodeAtMost);
    SortUnique(attributes, Filter(sorted, Applicable), CodeAtMost);
  }

  /** The attributes of an accepted resource are ordered by distinct codes. */
  lemma BuiltAttributesSeparate(c: ResourceCatalog, scope: ResourceScope, unit: string, values: seq<AttributeValue>)
    requires ValuesFit(c, Bindings(c.attributes, CanonicalScope(scope)), values)
    ensures var a := Built(c, scope, unit, values).attributes; Sorted(a, CodeAtMost) && Separates(a, CodeAtMost)
  {
    var bound := Bindings(c.attributes, CanonicalScope(scope));
    var byCode := ByCode(c, bound, values);
    ByCodeIsKeyed(c, bound, values);
    hide ValuesFit, ByCode, Bindings, CanonicalScope;
    KeyedAttributesSeparate(SortedKeys(bound.Keys), byCode);
  }

  lemma KeyedAttributesSeparate(codes: seq<string>, byCode: map<string, AttributeValue>)
    requires StrictlySorted(codes) && KeyedByCode(byCode)
    ensures Sorted(Present(codes, byCode), CodeAtMost) && Separates(Present(codes, byCode), CodeAtMost)
  {
    var a := Present(codes, byCode);
    PresentSorted(codes, byCode);
    AtMostPreorder();
    forall i, j | 0 <= i < j < |a| ensures CodeAtMost(a[i], a[j]) {
      LessIrreflexive(a[i].attributeCode);
      if Less(a[j].attributeCode, a[i].attributeCode) {
        LessTransitive(a[i].attributeCode, a[j].attributeCode, a[i].attributeCode);
      }
    }
    hide AtMost, Less;
  }

  /** Round trip: an accepted resource without sentinel values, stored in any order and with any
      not-applicable markers, rehydrates with its own key, scope and attributes; every result the
      unstable sort allows agrees on the applicable attributes. */
  lemma StoredResourceRehydrates(c: ResourceCatalog, scope: ResourceScope, unit: string, values: seq<AttributeValue>,
      snap: Snapshot, out: Resource)
    requires Accepts(c, scope, unit, values, true)
    requires var r := Built(c, scope, unit, values);
      && (forall v :: v in r.attributes ==> Applicable(v))
      && snap.id > 0 && snap.scope == ScopeOf(r) && snap.naturalUnit == r.naturalUnit && snap.identityKey == r.identityKey
      && StoredFor(snap.attributes, r)
    ensures Outcome(c, snap.scope, snap.naturalUnit, Filter(snap.attributes, Applicable), false) == Ok(Built(c, scope, unit, values))
    ensures Rehydrated(c, snap, out) ==> SameApplicable(out, Built(c, scope, unit, values).(id := snap.id, active := snap.active))
  {
    var r := Built(c, scope, unit, values);
    RebuildsToItself(c, scope, unit, values, Filter(snap.attributes, Applicable), true, false);
    BuiltAttributesSeparate(c, scope, unit, values);
    hide Accepts, Built, Filter, Outcome, Sorted, Separates, SameApplicable;
    if Rehydrated(c, snap, out) {
      RehydratedFrom(c, snap, r, out);
    }
  }

  /** Equal but for not-applicable markers. */
  predicate SameApplicable(out: Resource, r: Resource) {
    out == r.(attributes := out.attributes) && Filter(out.attributes, Applicable) == r.attributes
  }

  lemma RehydratedFrom(c: ResourceCatalog, snap: Snapshot, r: Resource, out: Resource)
    requires Outcome(c, snap.scope, snap.naturalUnit, Filter(snap.attributes, Applicable), false) == Ok(r)
    requires forall v :: v in r.attributes ==> Applicable(v)
    requires Sorted(r.attributes, CodeAtMost) && Separates(r.attributes, CodeAtMost)
    requires Rehydrated(c, snap, out)
    ensures SameApplicable(out, r.(id := snap.id, active := snap.active))
  {
    hide Outcome, CodeAtMost, Sorted, Separates;
    MarkersAside(r.attributes, Filter(snap.attributes, Marker), out.attributes);
  }

  /** The reactivation candidate of such a stored resource always succeeds with the stored key. */
  lemma StoredResourceReactivates(c: ResourceCatalog, scope: ResourceScope, unit: string, values: seq<AttributeValue>, current: Resource)
    requires Accepts(c, scope, unit, values, true)
    requires var r := Built(c, scope, unit, values);
      ScopeOf(current) == ScopeOf(r) && current.naturalUnit == r.naturalUnit && StoredFor(current.attributes, r)
    ensures Outcome(c, ScopeOf(current), current.naturalUnit, Filter(current.attributes, Applicable), true) == Ok(Built(c, scope, unit, values))
  {
    RebuildsToItself(c, scope, unit, values, Filter(current.attributes, Applicable), true, true);
  }
}

/** A text that reads like the not-applicable marker and carries an option code a rule looks at. */
module MarkerExample {
  import opened Text
  import opened Catalog
  import opened Sorting
  import opened Resource
  import opened ResourceLaws
  import opened Validation
  import opened Rehydration
  import opened Markers
  import opened ResourceRows

  /** Canonical codes; `text` is the free characteristic, `ruled` the one whose rule looks at it. */
  datatype Codes = Codes(klass: string, family: string, typ: string, unit: string, text: string, ruled: string)

  predicate Settled(n: Codes) {
    && Canonical(n.klass) == n.klass && Canonical(n.family) == n.family && Canonical(n.typ) == n.typ && n.typ != ""
    && Canonical(n.unit) == n.unit && CanonicalAttribute(n.text) == n.text && CanonicalAttribute(n.ruled) == n.ruled
    && n.text != n.ruled && Canonical("A") == "A" && !Blank(NOT_APPLICABLE) && Squeeze(NOT_APPLICABLE) == NOT_APPLICABLE
  }

  /** Optional and outside the identity. */
  function Free(n: Codes): ResourceAttribute {
    ResourceAttribute(n.klass, n.family, n.typ, "", AttributeDefinition(n.text, "N", ControlledText, "", false, true), Optional, false, [], true)
  }

  /** Forbidden where the text carries option A, otherwise required. */
  function Ruled(n: Codes): ResourceAttribute {
    ResourceAttribute(n.klass, n.family, n.typ, "", AttributeDefinition(n.ruled, "N", BooleanType, "", true, true), Conditional, true,
      [AttributeRule(n.text, "A", Forbidden, false, false, true)], true)
  }

  function Small(n: Codes): ResourceCatalog {
    ResourceCatalog(
      [ResourceClass(n.klass, "N", "N", "N", [], [], 1, true)], [ResourceFamily(n.klass, n.family, "N", true)],
      [ResourceType(n.klass, n.family, n.typ, "N", true)], [],
      [UnitDefinition(n.unit, "N", "N", "N", true)], [ResourceUnitPolicy(n.klass, n.family, n.unit, true, true, true)],
      [Free(n).definition, Ruled(n).definition], [Free(n), Ruled(n)], [], [], [])
  }

  function Scope(n: Codes): ResourceScope { ResourceScope(n.klass, n.family, n.typ) }

  function Marked(n: Codes): AttributeValue {
    AttributeValue(n.text, ControlledText, "A", None, None, None, None, NOT_APPLICABLE)
  }

  function Both(n: Codes): map<string, ResourceAttribute> { map[n.text := Free(n), n.ruled := Ruled(n)] }

  function Filed(n: Codes): map<string, AttributeValue> { map[n.text := Marked(n)] }

  lemma TwoBindings(n: Codes)
    requires Settled(n)
    ensures CanonicalScope(Scope(n)) == Scope(n) && Bindings(Small(n).attributes, Scope(n)) == Both(n)
  {
    hide Canonical, CanonicalAttribute, Blank, Squeeze;
    var a, s := Small(n).attributes, Scope(n);
    assert Applies(a[0], s) && BindingCode(a[0]) == n.text && Applies(a[1], s) && BindingCode(a[1]) == n.ruled;
    assert a[..1] == [a[0]] && a[..1][..0] == [];
    assert Bindings([], s) == map[];
    assert Bindings(a[..1], s) == map[n.text := Free(n)];
  }

  lemma ValueFits(n: Codes)
    requires Settled(n)
    ensures ValuesFit(Small(n), Both(n), [Marked(n)]) && ByCode(Small(n), Both(n), [Marked(n)]) == Filed(n)
  {
    hide Canonical, CanonicalAttribute, Blank, Squeeze;
    var values := [Marked(n)];
    assert CanonicalValue(Small(n), Free(n), Marked(n)) == Ok(Marked(n));
    assert values[..0] == [] && ByCode(Small(n), Both(n), []) == map[];
  }

  lemma ScopeDefined(n: Codes)
    requires Settled(n)
    ensures ScopeAndUnitDefined(Small(n), Scope(n), n.unit)
  {
    hide Canonical, CanonicalAttribute, Blank, Squeeze;
    var c := Small(n);
    assert c.families[0] in c.families && c.types[0] in c.types && c.units[0] in c.units && c.unitPolicies[0] in c.unitPolicies;
    assert FamilyOf(c.families[0], Scope(n)) && TypeOf(c.types[0], Scope(n)) && PolicyFor(c.unitPolicies[0], Scope(n), n.unit);
  }

  /** With the text the rule forbids the other value, without it that value is required. */
  lemma RuleLooksAtMarker(n: Codes)
    requires Settled(n)
    ensures Effective(Free(n), Filed(n)) == Effect(Optional, false, false)
    ensures Effective(Ruled(n), Filed(n)) == Effect(Forbidden, false, false) && Effective(Ruled(n), map[]) == Effect(Required, true, false)
    ensures Unmarked(Filed(n)) == map[]
  {
    hide Canonical, CanonicalAttribute, Blank, Squeeze;
    var rules := Ruled(n).rules;
    assert RuleFires(rules[0], Filed(n)) && !RuleFires(rules[0], map[]);
    assert rules[1..] == [] && FirstRule([], map[]) == None;
    assert FirstRule(Free(n).rules, Filed(n)) == None;
  }

  lemma PairOfModes(a: string, x: ResourceAttribute, b: string, y: ResourceAttribute, v: AttributeValue)
    requires a != b
    requires Effective(x, map[a := v]) == Effect(Optional, false, false) && Effective(y, map[a := v]) == Effect(Forbidden, false, false)
    ensures var bound, values := map[a := x, b := y], map[a := v];
      ModesHold(bound, values) && MarkersOptional(bound, values) && MarkersOutside(bound, values)
  {
    hide Effective, Marker;
    var bound, values := map[a := x, b := y], map[a := v];
    assert forall code :: code in bound ==> code == a || code == b;
    assert ModeHolds(Effective(bound[a], values), true) && ModeHolds(Effective(bound[b], values), false);
  }

  lemma ModesWith(n: Codes)
    requires Settled(n)
    ensures ModesHold(Both(n), Filed(n)) && MarkersOptional(Both(n), Filed(n)) && MarkersOutside(Both(n), Filed(n))
  {
    RuleLooksAtMarker(n);
    hide Effective, Free, Ruled, Marked, Canonical, CanonicalAttribute, Blank, Squeeze, ModesHold, MarkersOptional, MarkersOutside;
    PairOfModes(n.text, Free(n), n.ruled, Ruled(n), Marked(n));
  }

  lemma ModesWithout(n: Codes)
    requires Settled(n)
    ensures !ModesHold(Both(n), Unmarked(Filed(n)))
  {
    RuleLooksAtMarker(n);
    hide Effective, Free, Ruled, Canonical, CanonicalAttribute, Blank, Squeeze, Unmarked;
    assert n.ruled in Both(n) && Both(n)[n.ruled] == Ruled(n);
  }

  /** The resource is accepted, and its marker-like text is neither required nor part of the identity;
      yet without it the resource can neither be read back nor can a row updated to it be reactivated. */
  lemma OptionalMarkerIsNoticed(n: Codes, row: Resource, next: Resource)
    requires Settled(n) && Outcome(Small(n), Scope(n), n.unit, [Marked(n)], true) == Ok(next)
    ensures MarkersOptional(Both(n), Filed(n)) && MarkersOutside(Both(n), Filed(n))
    ensures Outcome(Small(n), ScopeOf(next), next.naturalUnit, Filter(next.attributes, Applicable), false).Err?
    ensures !Rebuilds(Small(n), ResourceRows.Replaced(row, next))
  {
    MarkedIsAccepted(n);
    TwoBindings(n);
    ValueFits(n);
    ModesWith(n);
    ModesWithout(n);
    var c, s, unit, values := Small(n), Scope(n), n.unit, [Marked(n)];
    RestRebuilds(c, s, unit, values, true, false);
    UpdatedRowRebuildsIff(c, s, unit, values, row);
    hide Filter, Small, Scope, Marked, Both, Filed, Settled, ValuesFit, ByCode, Bindings, CanonicalScope, MarkersOptional, MarkersOutside, Rebuilds;
    hide ScopeAndUnitDefined, ActiveChain, RelationsCohere, ModesHold, Unmarked, KeyWithoutMarkers, IdentityKey, Parts, Present;
  }

  lemma NothingElse(n: Codes)
    ensures !ActiveSemantics(Small(n)) && Small(n).relations == []
  {}

  lemma MarkedIsAccepted(n: Codes)
    requires Settled(n)
    ensures Accepts(Small(n), Scope(n), n.unit, [Marked(n)], true)
  {
    TwoBindings(n);
    ValueFits(n);
    ScopeDefined(n);
    ModesWith(n);
    NothingElse(n);
    hide ActiveSemantics, Settled, Scope, CanonicalScope, Bindings, ValuesFit, ByCode, ScopeAndUnitDefined, ModesHold, Small, Marked, Both, Filed, CanonicalAttribute, Squeeze, Blank;
  }

  lemma SettledCodesExist()
    ensures Settled(Codes("C", "F", "T", "U", "a", "b"))
  {
    hide Canonical, CanonicalAttribute, Blank, Squeeze;
    CapitalLetter('A');
    CapitalLetter('C');
    CapitalLetter('F');
    CapitalLetter('T');
    CapitalLetter('U');
    SmallLetter('a');
    SmallLetter('b');
    SentinelIsClean();
  }

  lemma SentinelIsClean()
    ensures !Blank(NOT_APPLICABLE) && Squeeze(NOT_APPLICABLE) == NOT_APPLICABLE
  {
    hide Squeeze, Blank;
    WordIsFixed(NOT_APPLICABLE);
  }
}

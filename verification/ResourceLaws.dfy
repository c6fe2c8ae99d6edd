/** Laws of construction: the order of the supplied values is immaterial, and a stored resource
    rebuilds to itself. */
module ResourceLaws {
  import opened Text
  import opened Sorting
  import opened Catalog
  import opened Resource
  import opened ResourceBuild

  // ----- permuting the input -----

  lemma FitPermuted(c: ResourceCatalog, bound: map<string, ResourceAttribute>, a: seq<AttributeValue>, b: seq<AttributeValue>)
    requires multiset(a) == multiset(b) && ValuesFit(c, bound, a)
    ensures ValuesFit(c, bound, b)
  {
    hide CanonicalValue, ValueCode;
    var x, y := Map(ValueCode, a), Map(ValueCode, b);
    MapKeepsRearrangement(ValueCode, a, b);
    assert Distinct(x);
    RearrangedDistinct(x, y);
    forall i, j | 0 <= i < j < |b| ensures ValueCode(b[i]) != ValueCode(b[j]) {
      assert y[i] != y[j];
    }
    forall v | v in b ensures v in a { RearrangedMember(a, b, v); }
  }

  lemma ByCodePermuted(c: ResourceCatalog, bound: map<string, ResourceAttribute>, a: seq<AttributeValue>, b: seq<AttributeValue>)
    requires ValuesFit(c, bound, a) && ValuesFit(c, bound, b)
    requires forall v :: v in a <==> v in b
    ensures ByCode(c, bound, a) == ByCode(c, bound, b)
  {
    hide CanonicalValue, ValueCode, ByCode;
    ByCodeHolds(c, bound, a);
    ByCodeHolds(c, bound, b);
    var m, n := ByCode(c, bound, a), ByCode(c, bound, b);
    forall code ensures code in m <==> code in n {}
    forall code | code in m ensures m[code] == n[code] {
      var v :| v in a && ValueCode(v) == code;
      assert v in b;
    }
  }

  /** Permuting the values changes neither acceptance nor the resource nor the error class. */
  lemma OrderOfValuesIsImmaterial(c: ResourceCatalog, scope: ResourceScope, unit: string,
      a: seq<AttributeValue>, b: seq<AttributeValue>, requireActive: bool)
    requires multiset(a) == multiset(b)
    ensures Outcome(c, scope, unit, a, requireActive) == Outcome(c, scope, unit, b, requireActive)
  {
    hide ScopeAndUnitDefined, CanonicalScope, Canonical, ValuesFit, ByCode, ActiveChain, RelationsCohere, ModesHold;
    hide SortedKeys, Present, Parts, IdentityKey;
    var bound := Bindings(c.attributes, CanonicalScope(scope));
    if ValuesFit(c, bound, a) {
      FitPermuted(c, bound, a, b);
    } else if ValuesFit(c, bound, b) {
      FitPermuted(c, bound, b, a);
    }
    if ValuesFit(c, bound, a) {
      forall v ensures v in a <==> v in b { RearrangedMember(a, b, v); }
      ByCodePermuted(c, bound, a, b);
    }
  }

  // ----- canonical values are fixed -----

  lemma TrimmedStartsWithWord(s: string)
    requires s != "" && !IsSpace(s[0])
    ensures TrimRight(s) != "" && TrimRight(s)[0] == s[0]
  {
  }

  lemma SqueezeNonBlank(s: string)
    requires !Blank(s)
    ensures !Blank(Squeeze(s))
  {
    var t := TrimLeft(s);
    TrimmedStartsWithWord(t);
    assert Fields(TrimSpace(s)) != [];
    FieldsAreWords(TrimSpace(s));
    JoinedWordsAreClean(Fields(TrimSpace(s)));
    assert TrimSpace(Squeeze(s)) == Squeeze(s);
  }

  /** Canonicalizing a canonical value changes nothing. */
  lemma CanonicalValueFixed(c: ResourceCatalog, a: ResourceAttribute, v: AttributeValue)
    requires CanonicalValue(c, a, v).Ok?
    ensures var w := CanonicalValue(c, a, v).value;
      CanonicalValue(c, a, w) == Ok(w) && w.attributeCode == ValueCode(v) && ValueCode(w) == ValueCode(v) && w.typ == v.typ
  {
    CanonicalAttributeIdempotent(v.attributeCode);
    if v.typ == QuantityType {
      CanonicalIdempotent(v.quantity.value.unitCode);
    }
    if v.typ == ControlledText {
      SqueezeIdempotent(v.text);
      SqueezeNonBlank(v.text);
    }
    hide Canonical, CanonicalAttribute, Squeeze, Blank, HasOption, BindingCode, SetKey;
  }

  // ----- rebuilding a built resource -----

  lemma {:induction false} PresentHolds(codes: seq<string>, values: map<string, AttributeValue>, code: string)
    requires code in codes && code in values
    ensures values[code] in Present(codes, values)
  {
    var n := |codes| - 1;
    if code != codes[n] {
      PresentHolds(codes[..n], values, code);
    }
  }

  /** Every filed value is canonical under its code. */
  ghost predicate FiledCanonical(c: ResourceCatalog, bound: map<string, ResourceAttribute>, byCode: map<string, AttributeValue>) {
    forall code :: code in byCode ==>
      code in bound && CanonicalValue(c, bound[code], byCode[code]) == Ok(byCode[code]) &&
      ValueCode(byCode[code]) == code && byCode[code].attributeCode == code
  }

  lemma ByCodeIsFiled(c: ResourceCatalog, bound: map<string, ResourceAttribute>, values: seq<AttributeValue>)
    requires ValuesFit(c, bound, values)
    ensures FiledCanonical(c, bound, ByCode(c, bound, values))
  {
    hide CanonicalValue, ValueCode, ByCode;
    ByCodeHolds(c, bound, values);
    ByCodeIsKeyed(c, bound, values);
    var byCode := ByCode(c, bound, values);
    forall code | code in byCode
      ensures code in bound && CanonicalValue(c, bound[code], byCode[code]) == Ok(byCode[code]) && ValueCode(byCode[code]) == code
    {
      var v :| v in values && ValueCode(v) == code;
      CanonicalValueFixed(c, bound[code], v);
    }
  }

  lemma FiledFit(c: ResourceCatalog, bound: map<string, ResourceAttribute>, byCode: map<string, AttributeValue>, codes: seq<string>)
    requires FiledCanonical(c, bound, byCode) && StrictlySorted(codes)
    ensures ValuesFit(c, bound, Present(codes, byCode))
  {
    hide CanonicalValue, ValueCode, Present, Less;
    var attributes := Present(codes, byCode);
    PresentSorted(codes, byCode);
    forall i, j | 0 <= i < j < |attributes| ensures ValueCode(attributes[i]) != ValueCode(attributes[j]) {
      assert attributes[i] in attributes && attributes[j] in attributes;
      LessIrreflexive(attributes[i].attributeCode);
    }
  }

  lemma FiledAgain(c: ResourceCatalog, bound: map<string, ResourceAttribute>, byCode: map<string, AttributeValue>, codes: seq<string>)
    requires FiledCanonical(c, bound, byCode) && StrictlySorted(codes) && forall code :: code in byCode ==> code in codes
    requires ValuesFit(c, bound, Present(codes, byCode))
    ensures ByCode(c, bound, Present(codes, byCode)) == byCode
  {
    hide CanonicalValue, ValueCode, Present, ByCode, Less, ValuesFit;
    var attributes := Present(codes, byCode);
    PresentSorted(codes, byCode);
    ByCodeHolds(c, bound, attributes);
    var again := ByCode(c, bound, attributes);
    forall code | code in byCode ensures code in again && again[code] == byCode[code] {
      PresentHolds(codes, byCode, code);
    }
    forall code | code in again ensures code in byCode {
      var v :| v in attributes && ValueCode(v) == code;
    }
  }

  /** The attributes of a built resource fit again and file under the same codes. */
  lemma AttributesRefile(c: ResourceCatalog, bound: map<string, ResourceAttribute>, values: seq<AttributeValue>, codes: seq<string>)
    requires ValuesFit(c, bound, values) && Listing(codes, bound.Keys)
    ensures var byCode := ByCode(c, bound, values);
      var attributes := Present(codes, byCode);
      ValuesFit(c, bound, attributes) && ByCode(c, bound, attributes) == byCode
  {
    ByCodeIsFiled(c, bound, values);
    KeysAreBound(c, bound, values);
    hide ValuesFit, ByCode, Present;
    FiledFit(c, bound, ByCode(c, bound, values), codes);
    FiledAgain(c, bound, ByCode(c, bound, values), codes);
  }

  function ScopeOf(r: Resource): ResourceScope {
    ResourceScope(r.classCode, r.familyCode, r.typeCode)
  }

  /** An accepted resource, presented again in any order, is accepted as itself; without the
      active checks too. */
  lemma RebuildsToItself(c: ResourceCatalog, scope: ResourceScope, unit: string, values: seq<AttributeValue>,
      again: seq<AttributeValue>, requireActive: bool, laterActive: bool)
    requires Accepts(c, scope, unit, values, requireActive) && (laterActive ==> requireActive)
    requires multiset(again) == multiset(Built(c, scope, unit, values).attributes)
    ensures var r := Built(c, scope, unit, values);
      Outcome(c, ScopeOf(r), r.naturalUnit, again, laterActive) == Ok(r)
  {
    var r := Built(c, scope, unit, values);
    var s := CanonicalScope(scope);
    var bound := Bindings(c.attributes, s);
    CanonicalScopeIdempotent(scope);
    CanonicalIdempotent(unit);
    AttributesRefile(c, bound, values, SortedKeys(bound.Keys));
    hide ScopeAndUnitDefined, CanonicalScope, Canonical, ValuesFit, ByCode, ActiveChain, RelationsCohere, ModesHold;
    hide SortedKeys, Present, Parts, IdentityKey;
    assert ScopeOf(r) == s;
    assert Outcome(c, s, r.naturalUnit, r.attributes, laterActive) == Ok(r);
    OrderOfValuesIsImmaterial(c, s, r.naturalUnit, r.attributes, again, laterActive);
  }
}

/** What a canonical value contributes to the identity, and that its printed form keeps all of it. */
module Payloads {
  import opened Text
  import opened Sorting
  import opened Catalog
  import opened Resource
  import opened ResourceLaws
  import opened Identity

  /** The part of a canonical value that its type makes significant. */
  datatype Payload =
    | OptionCode(code: string) | Whole(n: int) | Fraction(digits: string)
    | Measure(amount: string, unitCode: string) | Truth(b: bool) | Words(text: string)

  /** A value that has a canonical form: its type is one of the six, and the field of its type is there. */
  predicate Typed(v: AttributeValue) {
    match v.typ
    case ControlledOption => true
    case IntegerType => v.integer.Some?
    case DecimalType => v.decimal.Some?
    case QuantityType => v.quantity.Some?
    case BooleanType => v.boolean.Some?
    case ControlledText => true
    case OtherType(_) => false
  }

  function PayloadOf(v: AttributeValue): Payload {
    match v.typ
    case ControlledOption => OptionCode(v.optionCode)
    case IntegerType => if v.integer.Some? then Whole(v.integer.value) else Words("")
    case DecimalType => if v.decimal.Some? then Fraction(v.decimal.value.printed) else Words("")
    case QuantityType => if v.quantity.Some? then Measure(v.quantity.value.amount.printed, Canonical(v.quantity.value.unitCode)) else Words("")
    case BooleanType => if v.boolean.Some? then Truth(v.boolean.value) else Words("")
    case _ => Words(Canonical(v.text))
  }

  /** A printed number holds no blank. */
  predicate PlainAmount(v: AttributeValue) {
    v.typ == QuantityType && v.quantity.Some? ==> ' ' !in v.quantity.value.amount.printed
  }

  lemma SignShows(n: int)
    ensures Integer(n) != "" && (Integer(n)[0] == '-' <==> n < 0)
  {
    hide Decimal;
    if n >= 0 { assert Decimal(n)[0] in Decimal(n); }
  }

  lemma IntegersPrintApart(a: int, b: int)
    requires Integer(a) == Integer(b)
    ensures a == b
  {
    SignShows(a);
    SignShows(b);
    hide Decimal;
    if a < 0 {
      assert Integer(a)[1..] == Decimal(-a) && Integer(b)[1..] == Decimal(-b);
      DecimalInjective(-a, -b);
    } else {
      DecimalInjective(a, b);
    }
  }

  lemma AmountsSplit(a: string, u: string, b: string, w: string)
    requires ' ' !in a && ' ' !in b && a + " " + u == b + " " + w
    ensures a == b && u == w
  {
    var s := a + " " + u;
    assert s[..|a|] == a && s[|a|] == ' ' && s[|a| + 1..] == u;
    assert s == b + " " + w;
    assert s[..|b|] == b && s[|b|] == ' ' && s[|b| + 1..] == w;
    assert |a| == |b|;
  }

  /** Two values of one type print alike exactly when their significant parts are equal: the option code,
      the integer, the decimal's digits, the truth value, the canonical text, and for a quantity the
      amount together with the canonical unit. */
  lemma PrintedAlikeIff(v: AttributeValue, w: AttributeValue)
    requires v.typ == w.typ && Typed(v) && Typed(w) && PlainAmount(v) && PlainAmount(w)
    ensures Printed(v) == Printed(w) <==> PayloadOf(v) == PayloadOf(w)
  {
    hide Canonical, Integer;
    match v.typ
    case IntegerType =>
      if Printed(v) == Printed(w) { IntegersPrintApart(v.integer.value, w.integer.value); }
    case QuantityType =>
      var a, b := v.quantity.value, w.quantity.value;
      if Printed(v) == Printed(w) { AmountsSplit(a.amount.printed, Canonical(a.unitCode), b.amount.printed, Canonical(b.unitCode)); }
    case BooleanType =>
      assert "true"[0] != "false"[0];
    case _ => {}
  }

  /** Canonical values are typed. */
  lemma CanonicalIsTyped(c: ResourceCatalog, a: ResourceAttribute, v: AttributeValue)
    requires CanonicalValue(c, a, v) == Ok(v)
    ensures Typed(v)
  {
    hide Canonical, Squeeze, CanonicalAttribute, HasOption;
  }

  lemma TypeNamesTellApart(s: ValueType, t: ValueType)
    requires !s.OtherType? && !t.OtherType?
    ensures TypeName(s) == TypeName(t) <==> s == t
  {
    assert |"CONTROLLED_OPTION"| == 17 && |"INTEGER"| == 7 && |"DECIMAL"| == 7 && |"QUANTITY"| == 8 && |"BOOLEAN"| == 7 && |"CONTROLLED_TEXT"| == 15;
    assert "INTEGER"[0] != "DECIMAL"[0] && "INTEGER"[0] != "BOOLEAN"[0] && "DECIMAL"[0] != "BOOLEAN"[0];
  }

  // ----- the identity in terms of payloads -----

  datatype Contributor = Contributor(code: string, value: AttributeValue)

  /** A code, its type, and the significant part of its value. */
  datatype Significant = Significant(code: string, typ: ValueType, payload: Payload)

  /** The values that take part in the identity, in code order. */
  function Contributors(codes: seq<string>, bound: map<string, ResourceAttribute>, values: map<string, AttributeValue>): seq<Contributor> {
    if codes == [] then []
    else
      var code := codes[|codes| - 1];
      Contributors(codes[..|codes| - 1], bound, values) +
      (if code in values && code in bound && Effective(bound[code], values).participates then [Contributor(code, values[code])] else [])
  }

  function SignificantOf(x: Contributor): Significant { Significant(x.code, x.value.typ, PayloadOf(x.value)) }

  function PartOf(x: Contributor): Part { Part(x.code, TypeName(x.value.typ), Printed(x.value)) }

  lemma {:induction false} PartsAreContributors(codes: seq<string>, bound: map<string, ResourceAttribute>, values: map<string, AttributeValue>)
    ensures Parts(codes, bound, values) == Map(PartOf, Contributors(codes, bound, values))
    ensures forall x :: x in Contributors(codes, bound, values) ==> x.code in values && x.value == values[x.code]
  {
    hide Effective, Printed, TypeName;
    if codes != [] {
      var n := |codes| - 1;
      PartsAreContributors(codes[..n], bound, values);
    }
  }

  predicate AllPlain(xs: seq<Contributor>) { forall x :: x in xs ==> Typed(x.value) && PlainAmount(x.value) }

  lemma PartsAlikeIff(xs: seq<Contributor>, ys: seq<Contributor>)
    requires AllPlain(xs) && AllPlain(ys)
    ensures Map(PartOf, xs) == Map(PartOf, ys) <==> Map(SignificantOf, xs) == Map(SignificantOf, ys)
  {
    hide Printed, TypeName, PayloadOf, PlainAmount;
    assert |Map(PartOf, xs)| == |xs| == |Map(SignificantOf, xs)| && |Map(PartOf, ys)| == |ys| == |Map(SignificantOf, ys)|;
    forall i | 0 <= i < |xs| && i < |ys| ensures PartOf(xs[i]) == PartOf(ys[i]) <==> SignificantOf(xs[i]) == SignificantOf(ys[i]) {
      assert xs[i] in xs && ys[i] in ys;
      TypeNamesTellApart(xs[i].value.typ, ys[i].value.typ);
      if xs[i].value.typ == ys[i].value.typ { PrintedAlikeIff(xs[i].value, ys[i].value); }
    }
    hide PartOf, SignificantOf;
    if Map(PartOf, xs) == Map(PartOf, ys) {
      forall i | 0 <= i < |xs| ensures SignificantOf(xs[i]) == SignificantOf(ys[i]) {
        assert Map(PartOf, xs)[i] == Map(PartOf, ys)[i];
      }
    }
    if Map(SignificantOf, xs) == Map(SignificantOf, ys) {
      forall i | 0 <= i < |xs| ensures PartOf(xs[i]) == PartOf(ys[i]) {
        assert Map(SignificantOf, xs)[i] == Map(SignificantOf, ys)[i];
      }
    }
  }

  /** What a resource's values contribute. */
  ghost function Essence(c: ResourceCatalog, scope: ResourceScope, values: seq<AttributeValue>): seq<Significant>
    requires ValuesFit(c, Bindings(c.attributes, CanonicalScope(scope)), values)
  {
    var bound := Bindings(c.attributes, CanonicalScope(scope));
    Map(SignificantOf, Contributors(SortedKeys(bound.Keys), bound, ByCode(c, bound, values)))
  }

  predicate PlainValues(values: seq<AttributeValue>) { forall v :: v in values ==> PlainAmount(v) }

  lemma FiledIsPlain(c: ResourceCatalog, bound: map<string, ResourceAttribute>, values: seq<AttributeValue>, code: string)
    requires ValuesFit(c, bound, values) && PlainValues(values) && code in ByCode(c, bound, values)
    ensures Typed(ByCode(c, bound, values)[code]) && PlainAmount(ByCode(c, bound, values)[code])
  {
    ByCodeIsFiled(c, bound, values);
    ByCodeHolds(c, bound, values);
    var byCode := ByCode(c, bound, values);
    CanonicalIsTyped(c, bound[code], byCode[code]);
    var v :| v in values && ValueCode(v) == code;
    AmountUntouched(c, bound[code], v);
    hide CanonicalValue, ByCode, ValuesFit, Typed;
  }

  lemma AmountUntouched(c: ResourceCatalog, a: ResourceAttribute, v: AttributeValue)
    requires CanonicalValue(c, a, v).Ok? && PlainAmount(v)
    ensures PlainAmount(CanonicalValue(c, a, v).value)
  {
    hide Canonical, Squeeze, CanonicalAttribute, HasOption;
  }

  lemma ContributorsPlain(c: ResourceCatalog, scope: ResourceScope, values: seq<AttributeValue>)
    requires ValuesFit(c, Bindings(c.attributes, CanonicalScope(scope)), values) && PlainValues(values)
    ensures var bound := Bindings(c.attributes, CanonicalScope(scope));
      AllPlain(Contributors(SortedKeys(bound.Keys), bound, ByCode(c, bound, values)))
  {
    hide ValuesFit, ByCode, Typed, PlainAmount, CanonicalScope, Bindings, Contributors, PlainValues;
    var bound := Bindings(c.attributes, CanonicalScope(scope));
    var byCode, codes := ByCode(c, bound, values), SortedKeys(bound.Keys);
    PartsAreContributors(codes, bound, byCode);
    forall x | x in Contributors(codes, bound, byCode) ensures Typed(x.value) && PlainAmount(x.value) {
      FiledIsPlain(c, bound, values, x.code);
    }
  }

  /** Accepted resources, of whatever catalogs and units, are exact duplicates exactly when their
      canonical scopes are equal and the same codes take part with the same type and significant value:
      nothing significant is lost in the key, and nothing else enters it. */
  lemma DuplicateIffSameEssence(
      c: ResourceCatalog, scope: ResourceScope, unit: string, values: seq<AttributeValue>, active: bool,
      d: ResourceCatalog, scope': ResourceScope, unit': string, values': seq<AttributeValue>, active': bool)
    requires Accepts(c, scope, unit, values, active) && Accepts(d, scope', unit', values', active')
    requires PlainValues(values) && PlainValues(values')
    ensures ExactDuplicate(Built(c, scope, unit, values), Built(d, scope', unit', values')) <==>
      CanonicalScope(scope) == CanonicalScope(scope') && Essence(c, scope, values) == Essence(d, scope', values')
  {
    DuplicateIffSameIdentity(c, scope, unit, values, active, d, scope', unit', values', active');
    hide ActiveChain, RelationsCohere, ModesHold, ScopeAndUnitDefined, Built, ExactDuplicate;
    hide ValuesFit, ByCode, CanonicalScope, Bindings, Parts, Contributors, PartOf, SignificantOf, AllPlain, SortedKeys;
    ContributorsPlain(c, scope, values);
    ContributorsPlain(d, scope', values');
    var b, e := Bindings(c.attributes, CanonicalScope(scope)), Bindings(d.attributes, CanonicalScope(scope'));
    PartsAreContributors(SortedKeys(b.Keys), b, ByCode(c, b, values));
    PartsAreContributors(SortedKeys(e.Keys), e, ByCode(d, e, values'));
    PartsAlikeIff(Contributors(SortedKeys(b.Keys), b, ByCode(c, b, values)), Contributors(SortedKeys(e.Keys), e, ByCode(d, e, values')));
  }
}

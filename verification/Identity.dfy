/** Identity v1 is uniquely decodable, whatever the components hold. */
module Identity {
  import opened Text
  import opened Catalog
  import opened Resource

  lemma NumeralEnds(n: nat, tail: string, m: nat, rest: string)
    requires Text.Decimal(n) + ":" + tail == Text.Decimal(m) + ":" + rest
    ensures n == m && tail == rest
  {
    var a, b := Text.Decimal(n), Text.Decimal(m);
    var s := a + ":" + tail;
    assert s[..|a|] == a && s[|a|] == ':' && s[|a| + 1..] == tail;
    assert s == b + ":" + rest;
    assert s[..|b|] == b && s[|b|] == ':' && s[|b| + 1..] == rest;
    assert |a| == |b|;
    DecimalInjective(n, m);
  }

  lemma ComponentPrefix(a: string, x: string, b: string, y: string)
    requires IdentityComponent(a) + x == IdentityComponent(b) + y
    ensures a == b && x == y
  {
    assert IdentityComponent(a) + x == Text.Decimal(|a|) + ":" + (a + x);
    assert IdentityComponent(b) + y == Text.Decimal(|b|) + ":" + (b + y);
    NumeralEnds(|a|, a + x, |b|, b + y);
    assert a == (a + x)[..|a|] && b == (b + y)[..|b|];
    assert x == (a + x)[|a|..] && y == (b + y)[|b|..];
  }

  lemma PartPrefix(p: Part, x: string, q: Part, y: string)
    requires EncodePart(p) + x == EncodePart(q) + y
    ensures p == q && x == y
  {
    hide IdentityComponent;
    var p1, p2, p3 := IdentityComponent(p.code), IdentityComponent(p.typeName), IdentityComponent(p.printed);
    var q1, q2, q3 := IdentityComponent(q.code), IdentityComponent(q.typeName), IdentityComponent(q.printed);
    assert EncodePart(p) + x == p1 + (p2 + (p3 + x));
    assert EncodePart(q) + y == q1 + (q2 + (q3 + y));
    ComponentPrefix(p.code, p2 + (p3 + x), q.code, q2 + (q3 + y));
    ComponentPrefix(p.typeName, p3 + x, q.typeName, q3 + y);
    ComponentPrefix(p.printed, x, q.printed, y);
  }

  lemma {:induction false} EncodeCons(parts: seq<Part>)
    requires parts != []
    ensures EncodeParts(parts) == EncodePart(parts[0]) + EncodeParts(parts[1..])
  {
    EncodeNone();
    hide EncodePart, EncodeParts;
    var n := |parts| - 1;
    var init, last := parts[..n], parts[n];
    assert parts == init + [last];
    EncodeSnoc(init, last);
    if n == 0 {
      assert init == [] && parts[1..] == [];
    } else {
      EncodeCons(init);
      assert init[0] == parts[0] && parts[1..] == init[1..] + [last];
      EncodeSnoc(init[1..], last);
      assert EncodePart(parts[0]) + (EncodeParts(init[1..]) + EncodePart(last)) == EncodePart(parts[0]) + EncodeParts(init[1..]) + EncodePart(last);
    }
  }

  lemma EncodeNone()
    ensures EncodeParts([]) == ""
  {}

  lemma EncodePartNonEmpty(p: Part)
    ensures EncodePart(p) != ""
  {
  }

  lemma {:induction false} PartsInjective(ps: seq<Part>, qs: seq<Part>)
    requires EncodeParts(ps) == EncodeParts(qs)
    ensures ps == qs
  {
    hide EncodePart, EncodeParts;
    assert EncodeParts([]) == "" by { NoParts(); }
    if ps != [] { EncodeCons(ps); EncodePartNonEmpty(ps[0]); }
    if qs != [] { EncodeCons(qs); EncodePartNonEmpty(qs[0]); }
    if ps != [] && qs != [] {
      PartPrefix(ps[0], EncodeParts(ps[1..]), qs[0], EncodeParts(qs[1..]));
      PartsInjective(ps[1..], qs[1..]);
      assert ps == [ps[0]] + ps[1..] && qs == [qs[0]] + qs[1..];
    }
  }

  lemma NoParts()
    ensures EncodeParts([]) == ""
  {
  }

  /** Two keys are equal exactly when scope and participating triples are. */
  lemma KeyDecodes(s: ResourceScope, ps: seq<Part>, t: ResourceScope, qs: seq<Part>)
    ensures IdentityKey(s, ps) == IdentityKey(t, qs) <==> s == t && ps == qs
  {
    hide IdentityComponent, EncodeParts;
    if IdentityKey(s, ps) == IdentityKey(t, qs) {
      var x, y := EncodeParts(ps), EncodeParts(qs);
      var s1, s2, s3 := IdentityComponent(s.classCode), IdentityComponent(s.familyCode), IdentityComponent(s.typeCode);
      var t1, t2, t3 := IdentityComponent(t.classCode), IdentityComponent(t.familyCode), IdentityComponent(t.typeCode);
      assert IdentityKey(s, ps) == "v1|" + (s1 + (s2 + (s3 + x)));
      assert IdentityKey(t, qs) == "v1|" + (t1 + (t2 + (t3 + y)));
      assert s1 + (s2 + (s3 + x)) == IdentityKey(s, ps)[3..] == t1 + (t2 + (t3 + y));
      ComponentPrefix(s.classCode, s2 + (s3 + x), t.classCode, t2 + (t3 + y));
      ComponentPrefix(s.familyCode, s3 + x, t.familyCode, t3 + y);
      ComponentPrefix(s.typeCode, x, t.typeCode, y);
      PartsInjective(ps, qs);
    }
  }

  /** The participating triples of a fitting list of values. */
  ghost function Participating(c: ResourceCatalog, scope: ResourceScope, values: seq<AttributeValue>): seq<Part>
    requires ValuesFit(c, Bindings(c.attributes, CanonicalScope(scope)), values)
  {
    var bound := Bindings(c.attributes, CanonicalScope(scope));
    Parts(SortedKeys(bound.Keys), bound, ByCode(c, bound, values))
  }

  /** Two resources with one non-empty key. */
  predicate ExactDuplicate(a: Resource, b: Resource) {
    a.identityKey != "" && a.identityKey == b.identityKey
  }

  /** Accepted resources, of whatever catalogs and units, are exact duplicates exactly when they
      have the same canonical scope and the same participating (code, type, value) triples. */
  lemma DuplicateIffSameIdentity(
      c: ResourceCatalog, scope: ResourceScope, unit: string, values: seq<AttributeValue>, active: bool,
      d: ResourceCatalog, scope': ResourceScope, unit': string, values': seq<AttributeValue>, active': bool)
    requires Accepts(c, scope, unit, values, active) && Accepts(d, scope', unit', values', active')
    ensures ExactDuplicate(Built(c, scope, unit, values), Built(d, scope', unit', values')) <==>
      CanonicalScope(scope) == CanonicalScope(scope') && Participating(c, scope, values) == Participating(d, scope', values')
  {
    hide CanonicalScope, ValuesFit, ByCode, SortedKeys, Parts, Present, IdentityKey, ActiveChain, RelationsCohere, ModesHold, ScopeAndUnitDefined;
    var ps, qs := Participating(c, scope, values), Participating(d, scope', values');
    var s, t := CanonicalScope(scope), CanonicalScope(scope');
    KeyDecodes(s, ps, t, qs);
    KeyNonEmpty(s, ps);
  }

  lemma KeyNonEmpty(s: ResourceScope, ps: seq<Part>)
    ensures IdentityKey(s, ps) != ""
  {
    hide IdentityComponent, EncodeParts;
  }

  /** The layout of a key: the version, then class, family and type, then code, type and value of each
      contributor, every piece preceded by its length in decimal and a colon. */
  lemma KeyLayout(s: ResourceScope, parts: seq<Part>, p: Part)
    ensures IdentityKey(s, []) ==
      "v1|" + (Text.Decimal(|s.classCode|) + ":" + s.classCode) + (Text.Decimal(|s.familyCode|) + ":" + s.familyCode) + (Text.Decimal(|s.typeCode|) + ":" + s.typeCode)
    ensures IdentityKey(s, parts + [p]) == IdentityKey(s, parts) + (
      (Text.Decimal(|p.code|) + ":" + p.code) + (Text.Decimal(|p.typeName|) + ":" + p.typeName) + (Text.Decimal(|p.printed|) + ":" + p.printed))
  {
    EncodeSnoc(parts, p);
    assert EncodeParts([]) == "";
    hide EncodeParts, Text.Decimal;
    var head := "v1|" + IdentityComponent(s.classCode) + IdentityComponent(s.familyCode) + IdentityComponent(s.typeCode);
    assert head + (EncodeParts(parts) + EncodePart(p)) == head + EncodeParts(parts) + EncodePart(p);
    assert head + "" == head;
  }
}

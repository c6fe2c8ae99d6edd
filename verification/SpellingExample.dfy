/** A catalog with one binding, to which a second one is added without naming its option set. */
module SpellingExample {
  import opened Text
  import opened Catalog
  import opened Equivalence
  import opened Validation
  import opened Mutation
  import opened CoherentWrite
  import opened CatalogRepository
  import opened SpellingOrder

  /** Canonical codes; the first binding belongs to the option set `first + rest`. */
  datatype Names = Names(klass: string, family: string, typ: string, sibling: string, added: string, first: char, rest: string)

  function SetOf(n: Names): string { [n.first] + n.rest }

  predicate Settled(n: Names) {
    && Canonical(n.klass) == n.klass && !Blank(n.klass) && Canonical(n.family) == n.family && Canonical(n.typ) == n.typ && n.typ != ""
    && n.klass != "" && n.family != "" && n.added != ""
    && CanonicalAttribute(n.sibling) == n.sibling && CanonicalAttribute(n.added) == n.added && n.sibling != n.added
    && ' ' < n.first && n.first != 'D' && Canonical(SetOf(n)) == SetOf(n) && Canonical(DEFAULT_OPTION_SET) == DEFAULT_OPTION_SET
  }

  function Definition(code: string): AttributeDefinition { AttributeDefinition(code, "N", ControlledOption, "", false, true) }

  function BindingTo(n: Names, set_: string, code: string): ResourceAttribute {
    ResourceAttribute(n.klass, n.family, n.typ, set_, Definition(code), Optional, false, [], true)
  }

  /** With an option of the default set or without one. */
  function Before(n: Names, used: bool): ResourceCatalog {
    ResourceCatalog(
      [ResourceClass(n.klass, n.klass, n.klass, n.klass, [], [], 1, true)], [ResourceFamily(n.klass, n.family, "N", true)],
      [ResourceType(n.klass, n.family, n.typ, "N", true)], [], [], [],
      [Definition(n.sibling), Definition(n.added)], [BindingTo(n, SetOf(n), n.sibling)],
      [AttributeOption(SetOf(n), n.sibling, "X", "N", true)] +
        (if used then [AttributeOption(DEFAULT_OPTION_SET, n.added, "X", "N", true)] else []), [],
      [ResourceOptionSet(SetOf(n), "N", true), ResourceOptionSet(DEFAULT_OPTION_SET, "N", true)])
  }

  function Ref(code: string): FieldValue { FieldValue("", false, 0, [], code, None) }

  function Added(n: Names): Record {
    Record(KindBinding, 0, 0, true,
      map["class" := Ref(n.klass), "family" := Ref(n.family), "type" := Ref(n.typ), "characteristic" := Ref(n.added),
          "mode" := FieldValue("OPTIONAL", false, 0, [], "", None)], Some([]))
  }

  function State(n: Names, used: bool): Db { Db(Before(n, used), map[], map[], {}) }

  /** The statements store the binding under the default set. */
  function Stored(n: Names, used: bool): Environment {
    Environment(NoFault,
      Performed(1, Before(n, used).(attributes := Before(n, used).attributes + [BindingTo(n, DEFAULT_OPTION_SET, n.added)]), map[]), Acknowledged)
  }

  // ----- the mutation engine's prediction -----

  lemma AddedFields(n: Names)
    ensures RefOf(Added(n), "class") == n.klass && RefOf(Added(n), "family") == n.family && RefOf(Added(n), "type") == n.typ
    ensures RefOf(Added(n), "characteristic") == n.added && RefOf(Added(n), "optionSet") == "" && ParseMode(TextOf(Added(n), "mode")) == Optional
    ensures FlagOf(Added(n), "identityParticipates") == false
  {}

  lemma DefinitionsFound(n: Names, used: bool)
    requires Settled(n)
    ensures FindDefinition(Before(n, used).definitions, n.added) == Some(Definition(n.added))
  {
    hide CanonicalAttribute, Canonical, Blank;
    var ds := Before(n, used).definitions;
    assert ds[1..] == [Definition(n.added)];
    assert FindDefinition(ds[1..], n.added) == Some(Definition(n.added));
  }

  lemma ParentsExist(n: Names, c: ResourceCatalog)
    requires Settled(n) && c.families == Before(n, true).families && c.types == Before(n, true).types && c.classes == Before(n, true).classes
    ensures HasClassCode(c, n.klass) && HasFamilyIn(c, n.klass, n.family) && HasTypeIn(c, n.klass, n.family, n.typ)
  {
    hide Canonical, Blank, CanonicalAttribute;
    assert c.classes[0] in c.classes && c.families[0] in c.families && c.types[0] in c.types;
    assert FamilyIs(c.families[0], n.klass, n.family) && TypeIs(c.types[0], n.klass, n.family, n.typ);
  }

  /** What a record without rules and option set has to refer to. */
  lemma ApplicabilityPasses(c: ResourceCatalog, r: Record)
    requires r.rules == Some([]) && forall f :: f in r.values ==> r.values[f].refKind == None
    requires RefOf(r, "class") != "" && RefOf(r, "family") != "" && HasFamilyIn(c, RefOf(r, "class"), RefOf(r, "family"))
    requires HasTypeIn(c, RefOf(r, "class"), RefOf(r, "family"), RefOf(r, "type"))
    requires RefOf(r, "characteristic") != "" && HasDefinition(c, RefOf(r, "characteristic"))
    requires RefOf(r, "optionSet") == "" && ParseMode(TextOf(r, "mode")) == Optional
    ensures ApplicabilityError(c, r) == None
  {
    hide HasFamilyIn, HasTypeIn, HasDefinition, RefOf, TextOf, ParseMode;
    assert RefKindOk(r, "class", KindClass) && RefKindOk(r, "family", KindFamily) && RefKindOk(r, "type", KindType)
      && RefKindOk(r, "characteristic", KindDefinition) && RefKindOk(r, "optionSet", KindOptionSet);
    assert RulesError(c, []) == None;
    hide RefKindOk, HasCatalogOptionSet;
  }

  lemma RecordApplies(n: Names, used: bool)
    requires Settled(n)
    ensures ApplicabilityError(Before(n, used), Added(n)) == None
  {
    AddedFields(n);
    DefinitionsFound(n, used);
    ParentsExist(n, Before(n, used));
    NoKinds(n);
    hide Canonical, Blank, HasFamilyIn, HasTypeIn, FindDefinition, RefOf, TextOf, ParseMode, FlagOf, Before, ApplicabilityError, Added;
    ApplicabilityPasses(Before(n, used), Added(n));
  }

  lemma NoKinds(n: Names)
    ensures Added(n).kind == KindBinding && Added(n).rules == Some([]) && Added(n).active
    ensures forall f :: f in Added(n).values ==> Added(n).values[f].refKind == None
  {}

  lemma BindingOfRecord(n: Names, used: bool)
    requires Settled(n)
    ensures BindingFrom(Before(n, used), Added(n)) == BindingTo(n, "", n.added)
  {
    AddedFields(n);
    DefinitionsFound(n, used);
    NoKinds(n);
    hide Canonical, Blank, FindDefinition, RefOf, TextOf, ParseMode, FlagOf, Before, Added;
  }

  function Candidate(n: Names, used: bool): ResourceCatalog {
    Before(n, used).(attributes := Before(n, used).attributes + [BindingTo(n, "", n.added)])
  }

  lemma InsertedBinding(c: ResourceCatalog, r: Record)
    requires r.kind == KindBinding && ApplicabilityError(c, r) == None
    ensures ApplyCatalogMutation(c, CatalogMutation(Insert, r, None)) == Ok(c.(attributes := c.attributes + [BindingFrom(c, r)]))
  {
    hide ApplicabilityError, BindingFrom, BindingMatcher;
    assert Mutated(c.attributes, Insert, BindingMatcher(r), BindingFrom(c, r), BindingWithActive) == Ok(c.attributes + [BindingFrom(c, r)]);
    hide Mutated;
  }

  lemma CandidateIsPredicted(n: Names, used: bool)
    requires Settled(n)
    ensures ApplyCatalogMutation(Before(n, used), CatalogMutation(Insert, Added(n), None)) == Ok(Candidate(n, used))
  {
    RecordApplies(n, used);
    BindingOfRecord(n, used);
    NoKinds(n);
    hide ApplicabilityError, BindingFrom, Settled, Before, ApplyCatalogMutation, Added;
    InsertedBinding(Before(n, used), Added(n));
  }

  // ----- validity -----

  lemma BothBindingsValid(n: Names, used: bool)
    requires Settled(n)
    ensures AttributeValid(Candidate(n, used), BindingTo(n, SetOf(n), n.sibling)) && AttributeValid(Candidate(n, used), BindingTo(n, "", n.added))
  {
    var c := Candidate(n, used);
    ParentsExist(n, c);
    SiblingSetInUse(n, c);
    hide Canonical, Blank, CanonicalAttribute, HasFamilyIn, HasTypeIn, HasOptionSet, Candidate;
  }

  lemma SiblingSetInUse(n: Names, c: ResourceCatalog)
    requires |c.options| > 0 && c.options[0].optionSet == SetOf(n)
    ensures HasOptionSet(c, SetOf(n))
  {
    hide Canonical;
    assert c.options[0] in c.options;
  }

  lemma ParentsRefer(n: Names, c: ResourceCatalog)
    requires HasClassCode(c, n.klass) && HasFamilyIn(c, n.klass, n.family)
    requires c.families == [ResourceFamily(n.klass, n.family, "N", true)] && c.types == [ResourceType(n.klass, n.family, n.typ, "N", true)]
    ensures FamiliesKnown(c) && TypesValid(c)
  {
    hide HasClassCode, HasFamilyIn;
  }

  lemma BindingsRefer(c: ResourceCatalog, a: ResourceAttribute, b: ResourceAttribute)
    requires c.attributes == [a, b] && AttributeValid(c, a) && AttributeValid(c, b)
    ensures AttributesKnown(c)
  {
    hide AttributeValid;
  }

  lemma CandidateRefers(n: Names, used: bool)
    requires Settled(n)
    ensures ReferencesResolve(Candidate(n, used))
  {
    var c := Candidate(n, used);
    var e, x := BindingTo(n, SetOf(n), n.sibling), BindingTo(n, "", n.added);
    ParentsExist(n, c);
    BothBindingsValid(n, used);
    assert c.attributes == [e, x] && c.unitPolicies == [];
    hide Settled, HasFamilyIn, HasTypeIn, HasClassCode, AttributeValid, BindingTo, HasUnitCode, AttributesKnown, FamiliesKnown, TypesValid;
    ParentsRefer(n, c);
    BindingsRefer(c, e, x);
  }

  lemma CandidateKeepsRules(n: Names, used: bool)
    requires Settled(n)
    ensures RulesKept(Candidate(n, used))
  {
    hide Canonical, Blank, CanonicalAttribute, FamilyKey;
    var c := Candidate(n, used);
    assert FamilyActive(c.families, FamilyKey(n.klass, n.family)) by { assert c.families[..0] == []; }
    assert ClassActive(c.classes, Canonical(n.klass));
    assert ModesMatchRules(c);
  }

  // ----- how bindings print -----

  function Prefix(a: ResourceAttribute): string {
    "{ClassCode:" + a.classCode + " FamilyCode:" + a.familyCode + " TypeCode:" + a.typeCode + " OptionSet:"
  }

  function Suffix(a: ResourceAttribute): string { "Definition:{Code:" + a.definition.code + "} }" }

  function Show(a: ResourceAttribute): string { Prefix(a) + (a.optionSet + (" " + Suffix(a))) }

  /** The first difference decides. */
  lemma {:induction false} FirstDecides(prefix: string, a: char, u: string, b: char, v: string)
    requires a < b
    ensures Less(prefix + ([a] + u), prefix + ([b] + v))
  {
    var x, y := prefix + ([a] + u), prefix + ([b] + v);
    if prefix == "" {
      assert x == [a] + u && y == [b] + v;
    } else {
      FirstDecides(prefix[1..], a, u, b, v);
      assert x[1..] == prefix[1..] + ([a] + u) && y[1..] == prefix[1..] + ([b] + v);
    }
  }

  lemma PrintedOrder(n: Names)
    requires ' ' < n.first && n.first != 'D'
    ensures var x, e, y := BindingTo(n, "", n.added), BindingTo(n, SetOf(n), n.sibling), BindingTo(n, DEFAULT_OPTION_SET, n.added);
      Less(Show(x), Show(e)) && if n.first < 'D' then Less(Show(e), Show(y)) else Less(Show(y), Show(e)) && Less(Show(x), Show(y))
  {
    var x, e, y := BindingTo(n, "", n.added), BindingTo(n, SetOf(n), n.sibling), BindingTo(n, DEFAULT_OPTION_SET, n.added);
    var prefix := Prefix(x);
    hide Less, Suffix, Prefix;
    assert Prefix(e) == prefix && Prefix(y) == prefix by { SamePrefix(x, e); SamePrefix(x, y); }
    assert x.optionSet + (" " + Suffix(x)) == [' '] + Suffix(x);
    assert e.optionSet + (" " + Suffix(e)) == [n.first] + (n.rest + (" " + Suffix(e)));
    assert y.optionSet + (" " + Suffix(y)) == ['D'] + ("EFAULT" + (" " + Suffix(y)));
    FirstDecides(prefix, ' ', Suffix(x), n.first, n.rest + (" " + Suffix(e)));
    FirstDecides(prefix, ' ', Suffix(x), 'D', "EFAULT" + (" " + Suffix(y)));
    if n.first < 'D' {
      FirstDecides(prefix, n.first, n.rest + (" " + Suffix(e)), 'D', "EFAULT" + (" " + Suffix(y)));
    } else {
      FirstDecides(prefix, 'D', "EFAULT" + (" " + Suffix(y)), n.first, n.rest + (" " + Suffix(e)));
    }
  }

  lemma SamePrefix(a: ResourceAttribute, b: ResourceAttribute)
    requires a.classCode == b.classCode && a.familyCode == b.familyCode && a.typeCode == b.typeCode
    ensures Prefix(a) == Prefix(b)
  {}

  lemma BetweenIff(n: Names)
    requires ' ' < n.first && n.first != 'D'
    ensures var x, e, y := BindingTo(n, "", n.added), BindingTo(n, SetOf(n), n.sibling), BindingTo(n, DEFAULT_OPTION_SET, n.added);
      && (Between(Show, x, e, y) <==> n.first < 'D')
      && TellsApart([e] + [x], Show) && TellsApart([e] + [y], Show)
  {
    hide Less, Show;
    var x, e, y := BindingTo(n, "", n.added), BindingTo(n, SetOf(n), n.sibling), BindingTo(n, DEFAULT_OPTION_SET, n.added);
    PrintedOrder(n);
    LessIrreflexive(Show(e));
    if n.first > 'D' {
      if Less(Show(e), Show(y)) { LessTransitive(Show(e), Show(y), Show(e)); }
      if Less(Show(e), Show(x)) { LessTransitive(Show(e), Show(x), Show(e)); }
    }
  }

  // ----- the transaction -----

  lemma StateIsSpelledOut(n: Names, used: bool)
    requires Settled(n)
    ensures SpelledOut(Before(n, used))
  {
    hide Canonical, Blank, CanonicalAttribute;
    assert SetOf(n) != "";
  }

  lemma DefaultUsedIff(n: Names, used: bool)
    requires Settled(n)
    ensures DefaultSetInUse(Before(n, used)) <==> used
  {
    hide Blank, CanonicalAttribute, Canonical;
    var c := Before(n, used);
    assert SetOf(n)[0] != DEFAULT_OPTION_SET[0];
    if used {
      assert c.options[1] in c.options;
    } else {
      assert c.options == [AttributeOption(SetOf(n), n.sibling, "X", "N", true)];
    }
  }

  lemma InsertIsUnspelled(db: Db, r: Record, env: Environment)
    requires r.kind == KindBinding && r.rules.Some? && RefOf(r, "optionSet") == ""
    requires env.fault == NoFault && env.physical.Performed? && RowId(KindBinding, env.physical.newId) !in db.issued
    ensures UnspelledWrite(db, InsertRow(r), env) && BuildMutation(db, InsertRow(r)) == Ok(CatalogMutation(Insert, r, None))
  {
    hide RefOf;
  }

  lemma WriteIsUnspelled(n: Names, used: bool)
    requires Settled(n)
    ensures var db, w, env := State(n, used), InsertRow(Added(n)), Stored(n, used);
      && UnspelledWrite(db, w, env) && BuildMutation(db, w) == Ok(CatalogMutation(Insert, Added(n), None))
      && Untouched(db, w) == [BindingTo(n, SetOf(n), n.sibling)] && Predicted(db, w) == BindingTo(n, "", n.added)
  {
    AddedFields(n);
    NoKinds(n);
    BindingOfRecord(n, used);
    hide RefOf, BindingFrom, BindingMatcher, Settled, Added, UnspelledWrite, BuildMutation, IndexOf;
    InsertIsUnspelled(State(n, used), Added(n), Stored(n, used));
  }

  lemma ReloadIsFaithful(n: Names, used: bool)
    requires Settled(n)
    ensures FaithfulReload(State(n, used), InsertRow(Added(n)), Stored(n, used))
    ensures NormalAttribute(BindingTo(n, "", n.added)) == BindingTo(n, DEFAULT_OPTION_SET, n.added)
  {
    WriteIsUnspelled(n, used);
    hide UnspelledWrite, Untouched, Predicted, BuildMutation, Settled, Added;
  }

  /** Adding a binding without an option set to this catalog: the transaction reaches its commit exactly
      when the default set has an option and the other binding's set does not start below 'D'. */
  lemma AddedBindingLandsIff(n: Names, used: bool, p: Printer)
    requires Settled(n) && p.attributes == Show
    ensures Lands(State(n, used), InsertRow(Added(n)), Stored(n, used), p) <==> used && n.first > 'D'
  {
    hide UnspelledWrite, FaithfulReload, Lands, ApplyCatalogMutation, Untouched, Predicted, BuildMutation, NormalAttribute, SpelledOut, TellsApart;
    hide Between, DefaultSetInUse, ReferencesResolve, RulesKept, Before, Candidate, Stored, Added, Show, BindingTo, Settled;
    var db, w, env := State(n, used), InsertRow(Added(n)), Stored(n, used);
    WriteIsUnspelled(n, used);
    ReloadIsFaithful(n, used);
    StateIsSpelledOut(n, used);
    DefaultUsedIff(n, used);
    CandidateIsPredicted(n, used);
    CandidateRefers(n, used);
    CandidateKeepsRules(n, used);
    OnFirst(n);
    BetweenIff(n);
    UnspelledBindingLandsIff(db, w, env, p);
  }

  lemma OnFirst(n: Names)
    requires Settled(n)
    ensures ' ' < n.first && n.first != 'D'
  {}

  /** Such names exist, on either side of 'D'. */
  lemma NamesExist(first: char)
    requires 'A' <= first <= 'Z' && first != 'D'
    ensures Settled(Names("C", "F", "T", "a", "b", first, ""))
  {
    hide Canonical, CanonicalAttribute, Blank;
    CapitalLetter('C');
    CapitalLetter('F');
    CapitalLetter('T');
    CapitalLetter(first);
    SmallLetter('a');
    SmallLetter('b');
    DefaultIsCanonical();
    assert [first] + "" == [first];
  }

  lemma DefaultIsCanonical()
    ensures Canonical(DEFAULT_OPTION_SET) == DEFAULT_OPTION_SET
  {
    hide Canonical;
    CapitalsAreFixed(DEFAULT_OPTION_SET);
  }
}

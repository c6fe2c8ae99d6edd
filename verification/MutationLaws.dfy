/** What mutations keep: embedded definitions never go stale, and a fresh record that is inserted,
    deactivated and deleted leaves no trace. */
module MutationLaws {
  import opened Text
  import opened Sorting
  import opened Catalog
  import opened Resource
  import opened Validation
  import opened Mutation

  // ----- embedded definitions -----

  predicate DefinitionsUnique(definitions: seq<AttributeDefinition>) {
    forall i, j :: 0 <= i < j < |definitions| ==> CanonicalAttribute(definitions[i].code) != CanonicalAttribute(definitions[j].code)
  }

  /** Each binding embeds the catalog's definition for its code. */
  predicate Embedded(c: ResourceCatalog) {
    forall a :: a in c.attributes ==> FindDefinition(c.definitions, BindingCode(a)) == Some(a.definition)
  }

  predicate BindingUses(c: ResourceCatalog, code: string) {
    exists a :: a in c.attributes && BindingCode(a) == code
  }

  /** `s[i]` is the first definition of a code. */
  predicate FirstAt(s: seq<AttributeDefinition>, code: string, i: int) {
    && 0 <= i < |s| && CanonicalAttribute(s[i].code) == code
    && forall j :: 0 <= j < i ==> CanonicalAttribute(s[j].code) != code
  }

  lemma {:induction false} FindAt(s: seq<AttributeDefinition>, code: string, i: int)
    requires FirstAt(s, code, i)
    ensures FindDefinition(s, code) == Some(s[i])
  {
    hide CanonicalAttribute;
    if i > 0 {
      assert s[0] == s[0];
      FindAt(s[1..], code, i - 1);
    }
  }

  lemma {:induction false} FoundAt(s: seq<AttributeDefinition>, code: string) returns (i: int)
    requires FindDefinition(s, code).Some?
    ensures FirstAt(s, code, i)
  {
    hide CanonicalAttribute;
    if CanonicalAttribute(s[0].code) == code {
      i := 0;
    } else {
      var j := FoundAt(s[1..], code);
      i := j + 1;
    }
  }

  lemma FindAppended(s: seq<AttributeDefinition>, d: AttributeDefinition, code: string)
    requires FindDefinition(s, code).Some?
    ensures FindDefinition(s + [d], code) == FindDefinition(s, code)
  {
    hide CanonicalAttribute;
    var i := FoundAt(s, code);
    FindAt(s, code, i);
    FindAt(s + [d], code, i);
  }

  /** Replacing the first definition of `old` by one whose code does not clash. */
  lemma FindReplaced(s: seq<AttributeDefinition>, k: int, d: AttributeDefinition, code: string)
    requires 0 <= k < |s| && CanonicalAttribute(s[k].code) != code && CanonicalAttribute(d.code) != code
    requires FindDefinition(s, code).Some?
    ensures FindDefinition(s[k := d], code) == FindDefinition(s, code)
  {
    hide CanonicalAttribute;
    var i := FoundAt(s, code);
    FindAt(s, code, i);
    FindAt(s[k := d], code, i);
  }

  lemma FindRemoved(s: seq<AttributeDefinition>, k: int, code: string)
    requires 0 <= k < |s| && CanonicalAttribute(s[k].code) != code
    requires FindDefinition(s, code).Some?
    ensures FindDefinition(s[..k] + s[k + 1..], code) == FindDefinition(s, code)
  {
    hide CanonicalAttribute;
    var i := FoundAt(s, code);
    FindAt(s, code, i);
    FirstAfterRemoval(s, k, code, i);
    FindAt(s[..k] + s[k + 1..], code, if i < k then i else i - 1);
  }

  lemma FirstAfterRemoval(s: seq<AttributeDefinition>, k: int, code: string, i: int)
    requires 0 <= k < |s| && CanonicalAttribute(s[k].code) != code && FirstAt(s, code, i)
    ensures FirstAt(s[..k] + s[k + 1..], code, if i < k then i else i - 1)
    ensures (s[..k] + s[k + 1..])[if i < k then i else i - 1] == s[i]
  {
    hide CanonicalAttribute;
    var t := s[..k] + s[k + 1..];
    assert forall j :: 0 <= j < k ==> t[j] == s[j];
    assert forall j :: k <= j < |t| ==> t[j] == s[j + 1];
  }

  /** The definition a record names: the first of its code. */
  lemma MatchIsFirst(s: seq<AttributeDefinition>, r: Record, i: int)
    requires i == IndexOf(s, DefinitionMatcher(r)) && i >= 0
    ensures FirstAt(s, CanonicalAttribute(TextOf(r, "code")), i)
  {
    hide CanonicalAttribute, TextOf;
    forall j | 0 <= j < i ensures CanonicalAttribute(s[j].code) != CanonicalAttribute(TextOf(r, "code")) {
      assert !DefinitionMatcher(r)(s[j]);
    }
  }

  /** Replacing a definition under its own code, with the bindings rebuilt. */
  lemma ReplacedStaysEmbedded(c: ResourceCatalog, code: string, k: int, d: AttributeDefinition)
    requires Embedded(c) && FirstAt(c.definitions, code, k) && CanonicalAttribute(d.code) == code
    ensures Embedded(c.(definitions := c.definitions[k := d], attributes := Embed(c.attributes, code, d)))
  {
    hide CanonicalAttribute, FindDefinition;
    var next := c.definitions[k := d];
    FindAt(next, code, k);
    var embedded := Embed(c.attributes, code, d);
    forall a | a in embedded ensures FindDefinition(next, BindingCode(a)) == Some(a.definition) {
      var i :| 0 <= i < |embedded| && embedded[i] == a;
      var before := c.attributes[i];
      assert before in c.attributes;
      if BindingCode(before) != code {
        FindReplaced(c.definitions, k, d, BindingCode(before));
      }
    }
  }

  /** Switching a definition on or off, with the bindings synchronized. */
  lemma SwitchedStaysEmbedded(c: ResourceCatalog, code: string, k: int, on: bool)
    requires Embedded(c) && FirstAt(c.definitions, code, k)
    ensures var d := c.definitions[k].(active := on);
      var next := c.definitions[k := d];
      FirstActive(next, code) == on && Embedded(c.(definitions := next, attributes := EmbedActive(c.attributes, code, on)))
  {
    hide CanonicalAttribute, FindDefinition;
    var d := c.definitions[k].(active := on);
    var next := c.definitions[k := d];
    FindAt(c.definitions, code, k);
    FindAt(next, code, k);
    var embedded := EmbedActive(c.attributes, code, on);
    forall a | a in embedded ensures FindDefinition(next, BindingCode(a)) == Some(a.definition) {
      var i :| 0 <= i < |embedded| && embedded[i] == a;
      var before := c.attributes[i];
      assert before in c.attributes;
      if BindingCode(before) != code {
        FindReplaced(c.definitions, k, d, BindingCode(before));
      }
    }
  }

  /** Renaming an unreferenced definition to a code that stays unique. */
  lemma RenamedStaysEmbedded(c: ResourceCatalog, code: string, k: int, d: AttributeDefinition)
    requires Embedded(c) && FirstAt(c.definitions, code, k) && !BindingUses(c, code)
    requires DefinitionsUnique(c.definitions[k := d])
    ensures Embedded(c.(definitions := c.definitions[k := d]))
  {
    hide CanonicalAttribute, FindDefinition;
    var next := c.definitions[k := d];
    forall a | a in c.attributes ensures FindDefinition(next, BindingCode(a)) == Some(a.definition) {
      var i := FoundAt(c.definitions, BindingCode(a));
      assert i != k && next[i] == c.definitions[i] && next[k] == d;
      assert CanonicalAttribute(d.code) != BindingCode(a);
      FindReplaced(c.definitions, k, d, BindingCode(a));
    }
  }

  /** Deleting a definition strands exactly the bindings that used it. */
  lemma DeletedStaysEmbedded(c: ResourceCatalog, code: string, k: int)
    requires Embedded(c) && FirstAt(c.definitions, code, k) && DefinitionsUnique(c.definitions)
    ensures Embedded(c.(definitions := c.definitions[..k] + c.definitions[k + 1..])) <==> !BindingUses(c, code)
  {
    hide CanonicalAttribute, FindDefinition;
    var next := c.definitions[..k] + c.definitions[k + 1..];
    if !BindingUses(c, code) {
      forall a | a in c.attributes ensures FindDefinition(next, BindingCode(a)) == Some(a.definition) {
        FindRemoved(c.definitions, k, BindingCode(a));
      }
    } else if Embedded(c.(definitions := next)) {
      var a :| a in c.attributes && BindingCode(a) == code;
      var i := FoundAt(next, code);
    }
  }

  /** What the slice engine yields, operation by operation. */
  lemma SliceShape<T>(s: seq<T>, op: Op, matches: T -> bool, built: T, withActive: (T, bool) -> T)
    requires Mutated(s, op, matches, built, withActive).Ok?
    ensures op != OtherOp
    ensures op != Insert ==> IndexOf(s, matches) >= 0
    ensures var k, out := IndexOf(s, matches), Mutated(s, op, matches, built, withActive).value;
      && (op == Insert ==> out == s + [built])
      && (op == Update ==> out == s[k := built])
      && (op == Delete ==> out == s[..k] + s[k + 1..])
      && (op == Deactivate || op == Reactivate ==> out == s[k := withActive(s[k], op == Reactivate)])
  {
    hide IndexOf;
  }

  lemma UpdateShape(c: ResourceCatalog, r: Record, d: AttributeDefinition)
    requires MutateDefinitions(c, Update, r, d).Ok?
    ensures var code, k, out := CanonicalAttribute(TextOf(r, "code")), IndexOf(c.definitions, DefinitionMatcher(r)), MutateDefinitions(c, Update, r, d).value;
      && k >= 0
      && if CanonicalAttribute(d.code) == code then out == c.(definitions := c.definitions[k := d], attributes := Embed(c.attributes, code, d))
         else out == c.(definitions := c.definitions[k := d]) && !BindingUses(c, code)
  {
    SliceShape(c.definitions, Update, DefinitionMatcher(r), d, DefinitionWithActive);
    hide CanonicalAttribute, TextOf, Embed, Mutated, IndexOf;
  }

  lemma SwitchShape(c: ResourceCatalog, op: Op, r: Record, d: AttributeDefinition)
    requires (op == Deactivate || op == Reactivate) && MutateDefinitions(c, op, r, d).Ok?
    ensures IndexOf(c.definitions, DefinitionMatcher(r)) >= 0
    ensures var code, k := CanonicalAttribute(TextOf(r, "code")), IndexOf(c.definitions, DefinitionMatcher(r));
      var next := c.definitions[k := c.definitions[k].(active := op == Reactivate)];
      MutateDefinitions(c, op, r, d).value == c.(definitions := next, attributes := EmbedActive(c.attributes, code, FirstActive(next, code)))
  {
    SliceShape(c.definitions, op, DefinitionMatcher(r), d, DefinitionWithActive);
    hide CanonicalAttribute, TextOf, EmbedActive, FirstActive, Mutated, IndexOf;
  }

  lemma PlainShape(c: ResourceCatalog, op: Op, r: Record, d: AttributeDefinition)
    requires op != Update && op != Deactivate && op != Reactivate && MutateDefinitions(c, op, r, d).Ok?
    ensures op == Insert || (op == Delete && IndexOf(c.definitions, DefinitionMatcher(r)) >= 0)
    ensures var k, out := IndexOf(c.definitions, DefinitionMatcher(r)), MutateDefinitions(c, op, r, d).value;
      out == c.(definitions := if op == Insert then c.definitions + [d] else c.definitions[..k] + c.definitions[k + 1..])
  {
    SliceShape(c.definitions, op, DefinitionMatcher(r), d, DefinitionWithActive);
    hide CanonicalAttribute, TextOf, Mutated, IndexOf;
  }

  lemma UpdateStep(c: ResourceCatalog, r: Record, d: AttributeDefinition)
    requires Embedded(c) && MutateDefinitions(c, Update, r, d).Ok? && DefinitionsUnique(MutateDefinitions(c, Update, r, d).value.definitions)
    ensures Embedded(MutateDefinitions(c, Update, r, d).value)
  {
    UpdateShape(c, r, d);
    hide CanonicalAttribute, TextOf, Embedded, DefinitionsUnique, Embed, MutateDefinitions, BindingUses, IndexOf, FirstAt;
    var code, k := CanonicalAttribute(TextOf(r, "code")), IndexOf(c.definitions, DefinitionMatcher(r));
    MatchIsFirst(c.definitions, r, k);
    if CanonicalAttribute(d.code) == code {
      ReplacedStaysEmbedded(c, code, k, d);
    } else {
      RenamedStaysEmbedded(c, code, k, d);
    }
  }

  lemma SwitchStep(c: ResourceCatalog, op: Op, r: Record, d: AttributeDefinition)
    requires Embedded(c) && (op == Deactivate || op == Reactivate) && MutateDefinitions(c, op, r, d).Ok?
    ensures Embedded(MutateDefinitions(c, op, r, d).value)
  {
    SwitchShape(c, op, r, d);
    hide CanonicalAttribute, TextOf, Embedded, EmbedActive, MutateDefinitions, FirstActive, IndexOf, FirstAt;
    var k := IndexOf(c.definitions, DefinitionMatcher(r));
    MatchIsFirst(c.definitions, r, k);
    SwitchedStaysEmbedded(c, CanonicalAttribute(TextOf(r, "code")), k, op == Reactivate);
  }

  lemma DefinitionStep(c: ResourceCatalog, op: Op, r: Record, d: AttributeDefinition)
    requires Embedded(c) && DefinitionsUnique(c.definitions)
    requires MutateDefinitions(c, op, r, d).Ok? && DefinitionsUnique(MutateDefinitions(c, op, r, d).value.definitions)
    ensures Embedded(MutateDefinitions(c, op, r, d).value) <==>
      !(op == Delete && BindingUses(c, CanonicalAttribute(TextOf(r, "code"))))
  {
    hide CanonicalAttribute, TextOf, Embedded, DefinitionsUnique, MutateDefinitions, BindingUses, IndexOf, FirstAt;
    if op == Update {
      UpdateStep(c, r, d);
    } else if op == Deactivate || op == Reactivate {
      SwitchStep(c, op, r, d);
    } else {
      PlainShape(c, op, r, d);
      if op == Insert {
        InsertedStaysEmbedded(c, d);
      } else {
        var k := IndexOf(c.definitions, DefinitionMatcher(r));
        MatchIsFirst(c.definitions, r, k);
        DeletedStaysEmbedded(c, CanonicalAttribute(TextOf(r, "code")), k);
      }
    }
  }

  lemma InsertedStaysEmbedded(c: ResourceCatalog, d: AttributeDefinition)
    requires Embedded(c)
    ensures Embedded(c.(definitions := c.definitions + [d]))
  {
    hide CanonicalAttribute, FindDefinition;
    forall a | a in c.attributes ensures FindDefinition(c.definitions + [d], BindingCode(a)) == Some(a.definition) {
      FindAppended(c.definitions, d, BindingCode(a));
    }
  }

  lemma BuiltBindingIsEmbedded(c: ResourceCatalog, r: Record)
    requires ApplicabilityError(c, r) == None
    ensures FindDefinition(c.definitions, BindingCode(BindingFrom(c, r))) == Some(BindingFrom(c, r).definition)
    ensures BindingCode(BindingFrom(c, r)) == CanonicalAttribute(RefOf(r, "characteristic"))
  {
    assert HasDefinition(c, RefOf(r, "characteristic"));
    hide CanonicalAttribute, ApplicabilityError, RefOf, TextOf, ParseMode;
    var i := FoundAt(c.definitions, CanonicalAttribute(RefOf(r, "characteristic")));
    FindAt(c.definitions, CanonicalAttribute(RefOf(r, "characteristic")), i);
  }

  /** Where the elements of a mutated slice come from. */
  lemma MutatedElement<T>(s: seq<T>, op: Op, matches: T -> bool, built: T, withActive: (T, bool) -> T, x: T)
    requires Mutated(s, op, matches, built, withActive).Ok? && x in Mutated(s, op, matches, built, withActive).value
    ensures x in s || ((op == Insert || op == Update) && x == built) ||
      exists y, on :: y in s && x == withActive(y, on)
  {
    SliceShape(s, op, matches, built, withActive);
    hide Mutated, IndexOf;
    var next, k := Mutated(s, op, matches, built, withActive).value, IndexOf(s, matches);
    var i :| 0 <= i < |next| && next[i] == x;
    if op == Delete {
      assert x == s[if i < k then i else i + 1];
    } else if op == Deactivate || op == Reactivate {
      if i == k {
        assert s[k] in s && x == withActive(s[k], op == Reactivate);
      } else {
        assert x == s[i];
      }
    }
  }

  lemma BindingStep(c: ResourceCatalog, op: Op, r: Record, b: Record)
    requires Embedded(c) && MutateBindings(c, op, r, b).Ok?
    ensures Embedded(MutateBindings(c, op, r, b).value)
  {
    if op == Insert || op == Update { BuiltBindingIsEmbedded(c, b); }
    hide CanonicalAttribute, FindDefinition, ApplicabilityError, BindingFrom, BindingMatcher, Mutated, IndexOf;
    var next := MutateBindings(c, op, r, b).value;
    forall a | a in next.attributes ensures FindDefinition(c.definitions, BindingCode(a)) == Some(a.definition) {
      MutatedElement(c.attributes, op, BindingMatcher(r), BindingFrom(c, b), BindingWithActive, a);
    }
  }

  /** A mutation that keeps definition codes unique keeps every embedded definition current, unless
      it deletes a definition some binding uses - and then never. */
  lemma MutationKeepsEmbedded(c: ResourceCatalog, m: CatalogMutation)
    requires Embedded(c) && DefinitionsUnique(c.definitions)
    requires ApplyCatalogMutation(c, m).Ok? && DefinitionsUnique(ApplyCatalogMutation(c, m).value.definitions)
    ensures Embedded(ApplyCatalogMutation(c, m).value) <==> !StrandsBindings(c, m)
  {
    hide MutateDefinitions, MutateBindings, DefinitionsUnique, BindingUses, TextOf, Mutated, FindDefinition, BindingCode;
    hide ClassFrom, FamilyFrom, TypeFrom, DefinitionFrom, OptionSetFrom, OptionFrom, RelationFrom, UnitFrom, UnitPolicyFrom, PresentationFieldFrom;
    var b := if m.replacement.Some? then m.replacement.value else m.record;
    if m.record.kind == KindDefinition {
      DefinitionStep(c, m.op, m.record, DefinitionFrom(b));
    } else if m.record.kind == KindBinding {
      BindingStep(c, m.op, m.record, b);
    }
  }

  predicate StrandsBindings(c: ResourceCatalog, m: CatalogMutation) {
    m.record.kind == KindDefinition && m.op == Delete && BindingUses(c, CanonicalAttribute(TextOf(m.record, "code")))
  }

  /** A run in which every mutation applies, keeps definition codes unique and strands no binding. */
  predicate CarefulRun(c: ResourceCatalog, ms: seq<CatalogMutation>)
    decreases |ms|
  {
    ms == [] ||
    (!StrandsBindings(c, ms[0]) &&
     var next := ApplyCatalogMutation(c, ms[0]);
     next.Ok? && DefinitionsUnique(next.value.definitions) && CarefulRun(next.value, ms[1..]))
  }

  function RunAll(c: ResourceCatalog, ms: seq<CatalogMutation>): ResourceCatalog
    requires CarefulRun(c, ms)
    decreases |ms|
  {
    if ms == [] then c else RunAll(ApplyCatalogMutation(c, ms[0]).value, ms[1..])
  }

  /** Over any careful run no embedded definition goes stale. */
  lemma {:induction false} RunsKeepEmbedded(c: ResourceCatalog, ms: seq<CatalogMutation>)
    requires Embedded(c) && DefinitionsUnique(c.definitions) && CarefulRun(c, ms)
    ensures Embedded(RunAll(c, ms))
    decreases |ms|
  {
    hide ApplyCatalogMutation, Embedded, DefinitionsUnique, StrandsBindings;
    if ms != [] {
      MutationKeepsEmbedded(c, ms[0]);
      RunsKeepEmbedded(ApplyCatalogMutation(c, ms[0]).value, ms[1..]);
    }
  }

  // ----- insert, deactivate, delete -----

  /** Only a mutation of a type touches the types. */
  lemma OthersKeepTypes(c: ResourceCatalog, m: CatalogMutation)
    requires ApplyCatalogMutation(c, m).Ok? && m.record.kind != KindType
    ensures ApplyCatalogMutation(c, m).value.types == c.types
  {
    hide Mutated, ApplicabilityError, BindingFrom, FirstActive, DefinitionHasReferences, CanonicalAttribute;
  }

  lemma IndexOfAppended<T>(s: seq<T>, matches: T -> bool, x: T)
    requires IndexOf(s, matches) < 0 && matches(x)
    ensures IndexOf(s + [x], matches) == |s|
  {
    assert (s + [x])[|s|] == x;
    assert forall j :: 0 <= j < |s| ==> (s + [x])[j] == s[j];
  }

  lemma SliceRoundTrip<T>(s: seq<T>, matches: T -> bool, built: T, withActive: (T, bool) -> T)
    requires IndexOf(s, matches) < 0 && matches(built) && matches(withActive(built, false))
    ensures Mutated(s, Insert, matches, built, withActive) == Ok(s + [built])
    ensures Mutated(s + [built], Deactivate, matches, built, withActive) == Ok(s + [withActive(built, false)])
    ensures Mutated(s + [withActive(built, false)], Delete, matches, built, withActive) == Ok(s)
  {
    var off := withActive(built, false);
    IndexOfAppended(s, matches, built);
    IndexOfAppended(s, matches, off);
    hide IndexOf;
    assert (s + [built])[|s| := off] == s + [off];
    assert (s + [off])[..|s|] + (s + [off])[|s| + 1..] == s;
  }

  /** No element of the record's kind has its identity. */
  predicate FreshIdentity(c: ResourceCatalog, r: Record) {
    match r.kind
    case KindClass => IndexOf(c.classes, ClassMatcher(r)) < 0
    case KindFamily => IndexOf(c.families, FamilyMatcher(r)) < 0
    case KindType => IndexOf(c.types, TypeMatcher(r)) < 0
    case KindDefinition => IndexOf(c.definitions, DefinitionMatcher(r)) < 0
    case KindOptionSet => IndexOf(c.optionSets, OptionSetMatcher(r)) < 0
    case KindOption => IndexOf(c.options, OptionMatcher(r)) < 0
    case KindOptionRelation => IndexOf(c.relations, RelationMatcher(r)) < 0
    case KindUnit => IndexOf(c.units, UnitMatcher(r)) < 0
    case KindUnitPolicy => IndexOf(c.unitPolicies, UnitPolicyMatcher(r)) < 0
    case KindBinding => IndexOf(c.attributes, BindingMatcher(r)) < 0
    case KindPresentationField => IndexOf(c.presentationFields, PresentationFieldMatcher(r)) < 0
    case KindOther(_) => true
  }

  function Step(c: ResourceCatalog, op: Op, r: Record): Result<ResourceCatalog> {
    ApplyCatalogMutation(c, CatalogMutation(op, r, None))
  }

  predicate Restores(c: ResourceCatalog, r: Record) {
    && Step(c, Insert, r).Ok?
    && Step(Step(c, Insert, r).value, Deactivate, r).Ok?
    && Step(Step(Step(c, Insert, r).value, Deactivate, r).value, Delete, r) == Ok(c)
  }

  lemma PlainRoundTrip(c: ResourceCatalog, r: Record)
    requires FreshIdentity(c, r) && r.kind in {KindClass, KindFamily, KindType, KindUnit, KindUnitPolicy}
    ensures Restores(c, r)
  {
    hide Canonical, TextOf, RefOf, FlagOf, NumberOf, ListOf, Mutated, IndexOf;
    match r.kind
    case KindClass => SliceRoundTrip(c.classes, ClassMatcher(r), ClassFrom(r), ClassWithActive);
    case KindFamily => SliceRoundTrip(c.families, FamilyMatcher(r), FamilyFrom(r), FamilyWithActive);
    case KindType => SliceRoundTrip(c.types, TypeMatcher(r), TypeFrom(r), TypeWithActive);
    case KindUnit => SliceRoundTrip(c.units, UnitMatcher(r), UnitFrom(r), UnitWithActive);
    case KindUnitPolicy => SliceRoundTrip(c.unitPolicies, UnitPolicyMatcher(r), UnitPolicyFrom(r), UnitPolicyWithActive);
  }

  lemma OptionRoundTrip(c: ResourceCatalog, r: Record)
    requires FreshIdentity(c, r) && r.kind in {KindOptionSet, KindOption, KindOptionRelation, KindPresentationField}
    ensures Restores(c, r)
  {
    hide Canonical, CanonicalAttribute, CanonicalOptionSet, TextOf, RefOf, FlagOf, NumberOf, ListOf, Mutated, IndexOf;
    match r.kind
    case KindOptionSet => SliceRoundTrip(c.optionSets, OptionSetMatcher(r), OptionSetFrom(r), OptionSetWithActive);
    case KindOption => SliceRoundTrip(c.options, OptionMatcher(r), OptionFrom(r), OptionWithActive);
    case KindOptionRelation => SliceRoundTrip(c.relations, RelationMatcher(r), RelationFrom(r), RelationWithActive);
    case KindPresentationField => SliceRoundTrip(c.presentationFields, PresentationFieldMatcher(r), PresentationFieldFrom(r), PresentationFieldWithActive);
  }

  lemma UnusedCodeEmbedsNothing(c: ResourceCatalog, r: Record, active: bool)
    requires Embedded(c) && IndexOf(c.definitions, DefinitionMatcher(r)) < 0
    ensures EmbedActive(c.attributes, CanonicalAttribute(TextOf(r, "code")), active) == c.attributes
  {
    hide CanonicalAttribute, TextOf, FindDefinition;
    var code := CanonicalAttribute(TextOf(r, "code"));
    forall i | 0 <= i < |c.attributes| ensures BindingCode(c.attributes[i]) != code {
      assert c.attributes[i] in c.attributes;
      var j := FoundAt(c.definitions, BindingCode(c.attributes[i]));
      assert !DefinitionMatcher(r)(c.definitions[j]);
    }
  }

  lemma DefinitionRoundTrip(c: ResourceCatalog, r: Record)
    requires FreshIdentity(c, r) && r.kind == KindDefinition && Embedded(c)
    ensures Restores(c, r)
  {
    hide CanonicalAttribute, TextOf, FlagOf, ParseValueType, Mutated, IndexOf, EmbedActive, FirstActive, Embedded;
    SliceRoundTrip(c.definitions, DefinitionMatcher(r), DefinitionFrom(r), DefinitionWithActive);
    var off := DefinitionWithActive(DefinitionFrom(r), false);
    UnusedCodeEmbedsNothing(c, r, FirstActive(c.definitions + [off], CanonicalAttribute(TextOf(r, "code"))));
  }

  lemma BindingRoundTrip(c: ResourceCatalog, r: Record)
    requires FreshIdentity(c, r) && r.kind == KindBinding && Step(c, Insert, r).Ok?
    ensures Restores(c, r)
  {
    hide Canonical, CanonicalAttribute, TextOf, RefOf, FlagOf, ParseMode, Mutated, IndexOf, DefinitionFor, ApplicabilityError;
    BuiltBindingIsEmbedded(c, r);
    var built := BindingFrom(c, r);
    SliceRoundTrip(c.attributes, BindingMatcher(r), built, BindingWithActive);
    SameDefinitionsSameBinding(c, c.(attributes := c.attributes + [built]), r);
    SameDefinitionsSameBinding(c, c.(attributes := c.attributes + [BindingWithActive(built, false)]), r);
  }

  lemma SameDefinitionsSameBinding(c: ResourceCatalog, d: ResourceCatalog, r: Record)
    requires c.definitions == d.definitions
    ensures BindingFrom(c, r) == BindingFrom(d, r)
  {
    hide FindDefinition, RefOf, TextOf, ParseMode, FlagOf;
  }

  /** A record of fresh identity whose insertion succeeds can be deactivated and deleted again, and
      that restores the catalog exactly. */
  lemma InsertDeactivateDeleteRestores(c: ResourceCatalog, r: Record)
    requires Embedded(c) && FreshIdentity(c, r) && Step(c, Insert, r).Ok?
    ensures Restores(c, r)
  {
    hide FreshIdentity, Restores, Embedded;
    match r.kind
    case KindDefinition => DefinitionRoundTrip(c, r);
    case KindBinding => BindingRoundTrip(c, r);
    case KindOptionSet => OptionRoundTrip(c, r);
    case KindOption => OptionRoundTrip(c, r);
    case KindOptionRelation => OptionRoundTrip(c, r);
    case KindPresentationField => OptionRoundTrip(c, r);
    case _ => PlainRoundTrip(c, r);
  }
}

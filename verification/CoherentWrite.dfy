/** The coherent write transaction: apply, reload, validate, compare with the predicted candidate,
    and only then commit.  What the SQL statements do to the tables is an input; the protocol
    decides whether it may be committed. */
module CoherentWrite {
  import opened Text
  import opened Sorting
  import opened Catalog
  import opened Equivalence
  import opened Validation
  import opened Mutation

  // ----- comparing up to content order -----

  /** The "%+v" rendering of each kind of element. */
  datatype Printer = Printer(
    classes: ResourceClass -> string, families: ResourceFamily -> string, types: ResourceType -> string,
    presentationFields: PresentationField -> string, units: UnitDefinition -> string,
    unitPolicies: ResourceUnitPolicy -> string, definitions: AttributeDefinition -> string,
    attributes: ResourceAttribute -> string, options: AttributeOption -> string,
    relations: AttributeOptionRelation -> string, optionSets: ResourceOptionSet -> string)

  function ByContent<T>(show: T -> string): (T, T) -> bool {
    (x: T, y: T) => AtMost(show(x), show(y))
  }

  function SortedByContent<T>(items: seq<T>, show: T -> string): seq<T> {
    StableSort(items, ByContent(show))
  }

  function CanonicalOrder(c: ResourceCatalog, p: Printer): ResourceCatalog {
    ResourceCatalog(
      SortedByContent(c.classes, p.classes), SortedByContent(c.families, p.families), SortedByContent(c.types, p.types),
      SortedByContent(c.presentationFields, p.presentationFields), SortedByContent(c.units, p.units),
      SortedByContent(c.unitPolicies, p.unitPolicies), SortedByContent(c.definitions, p.definitions),
      SortedByContent(c.attributes, p.attributes), SortedByContent(c.options, p.options),
      SortedByContent(c.relations, p.relations), SortedByContent(c.optionSets, p.optionSets))
  }

  /** The comparison that gates the commit. */
  predicate Agree(after: ResourceCatalog, candidate: ResourceCatalog, p: Printer) {
    EquivalentResourceCatalogs(CanonicalOrder(after, p), CanonicalOrder(candidate, p))
  }

  /** The same elements, each as often, up to option-set spelling; rules keep their order inside
      each element. */
  predicate SameElementsUpToSpelling(a: ResourceCatalog, b: ResourceCatalog) {
    && multiset(a.classes) == multiset(b.classes) && multiset(a.families) == multiset(b.families)
    && multiset(a.types) == multiset(b.types) && multiset(a.presentationFields) == multiset(b.presentationFields)
    && multiset(a.units) == multiset(b.units) && multiset(a.unitPolicies) == multiset(b.unitPolicies)
    && multiset(a.definitions) == multiset(b.definitions)
    && multiset(Map(NormalAttribute, a.attributes)) == multiset(Map(NormalAttribute, b.attributes))
    && multiset(Map(NormalOption, a.options)) == multiset(Map(NormalOption, b.options))
    && multiset(Map(NormalRelation, a.relations)) == multiset(Map(NormalRelation, b.relations))
    && multiset(Map(NormalSet, a.optionSets)) == multiset(Map(NormalSet, b.optionSets))
  }

  lemma ByContentPreorder<T(!new)>(show: T -> string)
    ensures Preorder(ByContent(show))
  {
    AtMostPreorder();
    hide AtMost;
  }

  lemma SortedIsRearranged<T(!new)>(items: seq<T>, show: T -> string)
    ensures multiset(SortedByContent(items, show)) == multiset(items)
    ensures Sorted(SortedByContent(items, show), ByContent(show))
  {
    ByContentPreorder(show);
    StableSortSorts(items, ByContent(show));
  }

  lemma NormalizedRearranged<T(!new)>(a: seq<T>, b: seq<T>, show: T -> string, normal: T -> T)
    requires Map(normal, SortedByContent(a, show)) == Map(normal, SortedByContent(b, show))
    ensures multiset(Map(normal, a)) == multiset(Map(normal, b))
  {
    SortedIsRearranged(a, show);
    SortedIsRearranged(b, show);
    MapKeepsRearrangement(normal, SortedByContent(a, show), a);
    MapKeepsRearrangement(normal, SortedByContent(b, show), b);
  }

  lemma PlainRearranged<T(!new)>(a: seq<T>, b: seq<T>, show: T -> string)
    requires SortedByContent(a, show) == SortedByContent(b, show)
    ensures multiset(a) == multiset(b)
  {
    SortedIsRearranged(a, show);
    SortedIsRearranged(b, show);
  }

  /** Agreement is sound: the two catalogs hold the same elements up to order and spelling. */
  lemma AgreementIsSound(a: ResourceCatalog, b: ResourceCatalog, p: Printer)
    requires Agree(a, b, p)
    ensures SameElementsUpToSpelling(a, b)
  {
    hide SortedByContent, Map, NormalAttribute, NormalOption, NormalRelation, NormalSet, EquivalentResourceCatalogs;
    EquivalentIffSameNormalForm(CanonicalOrder(a, p), CanonicalOrder(b, p));
    PlainRearranged(a.classes, b.classes, p.classes);
    PlainRearranged(a.families, b.families, p.families);
    PlainRearranged(a.types, b.types, p.types);
    PlainRearranged(a.presentationFields, b.presentationFields, p.presentationFields);
    PlainRearranged(a.units, b.units, p.units);
    PlainRearranged(a.unitPolicies, b.unitPolicies, p.unitPolicies);
    PlainRearranged(a.definitions, b.definitions, p.definitions);
    NormalizedRearranged(a.attributes, b.attributes, p.attributes, NormalAttribute);
    NormalizedRearranged(a.options, b.options, p.options, NormalOption);
    NormalizedRearranged(a.relations, b.relations, p.relations, NormalRelation);
    NormalizedRearranged(a.optionSets, b.optionSets, p.optionSets, NormalSet);
  }

  /** Different elements print differently. */
  ghost predicate TellsApart<T(!new)>(s: seq<T>, show: T -> string) {
    forall x, y :: x in s && y in s && show(x) == show(y) ==> x == y
  }

  ghost predicate PrinterTellsApart(c: ResourceCatalog, p: Printer) {
    && TellsApart(c.classes, p.classes) && TellsApart(c.families, p.families) && TellsApart(c.types, p.types)
    && TellsApart(c.presentationFields, p.presentationFields) && TellsApart(c.units, p.units)
    && TellsApart(c.unitPolicies, p.unitPolicies) && TellsApart(c.definitions, p.definitions)
    && TellsApart(c.attributes, p.attributes) && TellsApart(c.options, p.options)
    && TellsApart(c.relations, p.relations) && TellsApart(c.optionSets, p.optionSets)
  }

  predicate SameContents(a: ResourceCatalog, b: ResourceCatalog) {
    && multiset(a.classes) == multiset(b.classes) && multiset(a.families) == multiset(b.families)
    && multiset(a.types) == multiset(b.types) && multiset(a.presentationFields) == multiset(b.presentationFields)
    && multiset(a.units) == multiset(b.units) && multiset(a.unitPolicies) == multiset(b.unitPolicies)
    && multiset(a.definitions) == multiset(b.definitions) && multiset(a.attributes) == multiset(b.attributes)
    && multiset(a.options) == multiset(b.options) && multiset(a.relations) == multiset(b.relations)
    && multiset(a.optionSets) == multiset(b.optionSets)
  }

  lemma SameSorted<T(!new)>(a: seq<T>, b: seq<T>, show: T -> string)
    requires multiset(a) == multiset(b) && TellsApart(a, show)
    ensures SortedByContent(a, show) == SortedByContent(b, show)
  {
    var x, y := SortedByContent(a, show), SortedByContent(b, show);
    SortedIsRearranged(a, show);
    SortedIsRearranged(b, show);
    AtMostPreorder();
    forall e ensures e in x <==> e in a { RearrangedMember(x, a, e); }
    hide AtMost, SortedByContent;
    assert Separates(x, ByContent(show));
    SortUnique(x, y, ByContent(show));
  }

  /** Agreement is complete for identical elements: whatever order each side lists them in, they
      agree, provided the printer tells different elements apart. */
  lemma IdenticalElementsAgree(a: ResourceCatalog, b: ResourceCatalog, p: Printer)
    requires SameContents(a, b) && PrinterTellsApart(a, p)
    ensures Agree(a, b, p)
  {
    hide SortedByContent, TellsApart, EquivalentResourceCatalogs, Normal;
    SameSorted(a.classes, b.classes, p.classes);
    SameSorted(a.families, b.families, p.families);
    SameSorted(a.types, b.types, p.types);
    SameSorted(a.presentationFields, b.presentationFields, p.presentationFields);
    SameSorted(a.units, b.units, p.units);
    SameSorted(a.unitPolicies, b.unitPolicies, p.unitPolicies);
    SameSorted(a.definitions, b.definitions, p.definitions);
    SameSorted(a.attributes, b.attributes, p.attributes);
    SameSorted(a.options, b.options, p.options);
    SameSorted(a.relations, b.relations, p.relations);
    SameSorted(a.optionSets, b.optionSets, p.optionSets);
    EquivalenceRelation(CanonicalOrder(a, p), CanonicalOrder(a, p), CanonicalOrder(a, p));
  }

  /** The default option set is spelled out everywhere. */
  predicate SpelledOut(c: ResourceCatalog) {
    && (forall a :: a in c.attributes ==> a.optionSet != "") && (forall o :: o in c.options ==> o.optionSet != "")
    && (forall r :: r in c.relations ==> r.optionSet != "") && (forall t :: t in c.optionSets ==> t.code != "")
  }

  lemma SpelledOutIsNormal(c: ResourceCatalog)
    requires SpelledOut(c)
    ensures Map(NormalAttribute, c.attributes) == c.attributes && Map(NormalOption, c.options) == c.options
    ensures Map(NormalRelation, c.relations) == c.relations && Map(NormalSet, c.optionSets) == c.optionSets
  {
    assert forall i :: 0 <= i < |c.attributes| ==> c.attributes[i] in c.attributes;
    assert forall i :: 0 <= i < |c.options| ==> c.options[i] in c.options;
    assert forall i :: 0 <= i < |c.relations| ==> c.relations[i] in c.relations;
    assert forall i :: 0 <= i < |c.optionSets| ==> c.optionSets[i] in c.optionSets;
  }

  /** With the default set spelled out on both sides, agreement is exactly equality up to the order
      within each collection. */
  lemma AgreementIsExactWhenSpelledOut(a: ResourceCatalog, b: ResourceCatalog, p: Printer)
    requires SpelledOut(a) && SpelledOut(b) && PrinterTellsApart(a, p)
    ensures Agree(a, b, p) <==> SameContents(a, b)
  {
    hide Agree, SpelledOut, Map, PrinterTellsApart;
    SpelledOutIsNormal(a);
    SpelledOutIsNormal(b);
    if Agree(a, b, p) { AgreementIsSound(a, b, p); }
    if SameContents(a, b) { IdenticalElementsAgree(a, b, p); }
  }
}

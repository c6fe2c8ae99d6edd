/** A binding written without an option set is stored, and reloaded, with the default one spelled out.
    The reload must then find that set in use, and since content is sorted before spellings are
    normalized, the two spellings must sort to the same place.  Otherwise the transaction refuses its
    own write. */
module SpellingOrder {
  import opened Text
  import opened Sorting
  import opened Catalog
  import opened Equivalence
  import opened Validation
  import opened Mutation
  import opened MutationLaws
  import opened CoherentWrite
  import opened CatalogRepository

  /** `e` prints strictly between `x` and `y`. */
  predicate Between<T>(show: T -> string, x: T, e: T, y: T) {
    (Less(show(x), show(e)) && Less(show(e), show(y))) || (Less(show(y), show(e)) && Less(show(e), show(x)))
  }

  /** `rest` is already normal, `x` is not, and `y` is its normal form. */
  ghost predicate OneUnspelled<T(!new)>(rest: seq<T>, x: T, y: T, normal: T -> T) {
    (forall e :: e in rest ==> normal(e) == e) && normal(x) == y && normal(y) == y && x != y
  }

  lemma UnspelledIsAlone<T(!new)>(rest: seq<T>, x: T, y: T, normal: T -> T, sorted: seq<T>)
    requires OneUnspelled(rest, x, y, normal) && multiset(sorted) == multiset(rest + [x])
    ensures x !in rest && x in sorted
    ensures forall i, j :: 0 <= i < j < |sorted| ==> !(sorted[i] == x && sorted[j] == x)
    ensures forall e :: e in sorted <==> e in rest || e == x
  {
    forall e ensures e in sorted <==> e in rest || e == x { RearrangedMember(sorted, rest + [x], e); }
    assert multiset(rest)[x] == 0;
    assert multiset(rest + [x])[x] == 1;
    forall i, j | 0 <= i < j < |sorted| && sorted[i] == sorted[j] ensures multiset(sorted)[sorted[i]] >= 2 {
      TwiceCounted(sorted, i, j);
    }
  }

  lemma TwiceCounted<T>(s: seq<T>, i: nat, j: nat)
    requires i < j < |s| && s[i] == s[j]
    ensures multiset(s)[s[i]] >= 2
  {
    assert s == s[..i] + [s[i]] + s[i + 1..j] + [s[j]] + s[j + 1..];
  }

  /** Sorting by content and then normalizing gives the same list for both spellings exactly when no
      element prints strictly between them. */
  lemma SpellingsSortAlikeIff<T(!new)>(rest: seq<T>, x: T, y: T, show: T -> string, normal: T -> T)
    requires OneUnspelled(rest, x, y, normal) && TellsApart(rest + [x], show) && TellsApart(rest + [y], show)
    ensures Map(normal, SortedByContent(rest + [x], show)) == Map(normal, SortedByContent(rest + [y], show)) <==>
      forall e :: e in rest ==> !Between(show, x, e, y)
  {
    var a, b := SortedByContent(rest + [x], show), SortedByContent(rest + [y], show);
    SortedIsRearranged(rest + [x], show);
    SortedIsRearranged(rest + [y], show);
    hide SortedByContent;
    forall e ensures e in b <==> e in rest || e == y { RearrangedMember(b, rest + [y], e); }
    assert Map(normal, b) == b;
    UnspelledIsAlone(rest, x, y, normal, a);
    if Map(normal, a) == b {
      forall e | e in rest ensures !Between(show, x, e, y) { SameListMeansNoneBetween(rest, x, y, show, normal, a, b, e); }
    }
    if forall e :: e in rest ==> !Between(show, x, e, y) {
      NoneBetweenMeansSameList(rest, x, y, show, normal, a, b);
    }
  }

  lemma SameListMeansNoneBetween<T(!new)>(rest: seq<T>, x: T, y: T, show: T -> string, normal: T -> T, a: seq<T>, b: seq<T>, e: T)
    requires OneUnspelled(rest, x, y, normal) && x in a && e in a && e in rest && e != x && Map(normal, a) == b
    requires Sorted(a, ByContent(show)) && Sorted(b, ByContent(show))
    ensures !Between(show, x, e, y)
  {
    var i :| 0 <= i < |a| && a[i] == x;
    var j :| 0 <= j < |a| && a[j] == e;
    assert b[i] == y && b[j] == e;
    assert i < j ==> ByContent(show)(a[i], a[j]) && ByContent(show)(b[i], b[j]);
    assert j < i ==> ByContent(show)(a[j], a[i]) && ByContent(show)(b[j], b[i]);
  }

  lemma NoneBetweenMeansSameList<T(!new)>(rest: seq<T>, x: T, y: T, show: T -> string, normal: T -> T, a: seq<T>, b: seq<T>)
    requires OneUnspelled(rest, x, y, normal) && TellsApart(rest + [x], show) && TellsApart(rest + [y], show)
    requires multiset(a) == multiset(rest + [x]) && multiset(b) == multiset(rest + [y])
    requires Sorted(a, ByContent(show)) && Sorted(b, ByContent(show))
    requires forall e :: e in rest ==> !Between(show, x, e, y)
    ensures Map(normal, a) == b
  {
    var n := Map(normal, a);
    UnspelledIsAlone(rest, x, y, normal, a);
    MapKeepsRearrangement(normal, a, rest + [x]);
    assert Map(normal, rest + [x]) == rest + [y];
    forall i, j | 0 <= i < j < |n| ensures ByContent(show)(n[i], n[j]) {
      assert a[i] in a && a[j] in a && ByContent(show)(a[i], a[j]);
      NormalKeepsOrder(rest, x, y, show, normal, a[i], a[j]);
    }
    forall e ensures e in n <==> e in rest + [y] { RearrangedMember(n, rest + [y], e); }
    SeparatedByContent(n, rest + [y], show);
    SortUnique(n, b, ByContent(show));
  }

  lemma SeparatedByContent<T(!new)>(n: seq<T>, s: seq<T>, show: T -> string)
    requires TellsApart(s, show) && forall e :: e in n <==> e in s
    ensures Separates(n, ByContent(show))
  {
    forall p, q | p in n && q in n && ByContent(show)(p, q) && ByContent(show)(q, p) ensures p == q {
      LessTotal(show(p), show(q));
    }
  }

  /** Normalizing keeps two elements in order when nothing prints between the two spellings. */
  lemma NormalKeepsOrder<T(!new)>(rest: seq<T>, x: T, y: T, show: T -> string, normal: T -> T, p: T, q: T)
    requires OneUnspelled(rest, x, y, normal) && TellsApart(rest + [x], show) && forall e :: e in rest ==> !Between(show, x, e, y)
    requires (p in rest || p == x) && (q in rest || q == x) && !(p == x && q == x) && AtMost(show(p), show(q))
    ensures AtMost(show(normal(p)), show(normal(q)))
  {
    assert forall e :: e in rest ==> e in rest + [x];
    assert x in rest + [x];
    if p == x {
      LessTotal(show(x), show(q));
    } else if q == x {
      LessTotal(show(p), show(x));
    }
  }

  lemma DefaultIsNormal(x: ResourceAttribute)
    requires x.optionSet == ""
    ensures NormalAttribute(x) == x.(optionSet := DEFAULT_OPTION_SET) && NormalAttribute(NormalAttribute(x)) == NormalAttribute(x)
  {}

  lemma SameSortedRearranged<T(!new)>(a: seq<T>, b: seq<T>, show: T -> string)
    requires multiset(a) == multiset(b) && TellsApart(b, show)
    ensures SortedByContent(a, show) == SortedByContent(b, show)
  {
    SameSorted(b, a, show);
  }

  /** Two catalogs that differ in the spelling of one binding agree exactly when no other binding
      prints strictly between the two spellings. */
  lemma UnspelledAgreesIff(before: ResourceCatalog, rest: seq<ResourceAttribute>, x: ResourceAttribute,
      predicted: seq<ResourceAttribute>, reloaded: seq<ResourceAttribute>, p: Printer)
    requires x.optionSet == "" && forall e :: e in rest ==> e.optionSet != ""
    requires multiset(predicted) == multiset(rest + [x]) && multiset(reloaded) == multiset(rest + [NormalAttribute(x)])
    requires TellsApart(rest + [x], p.attributes) && TellsApart(rest + [NormalAttribute(x)], p.attributes)
    ensures Agree(before.(attributes := reloaded), before.(attributes := predicted), p) <==>
      forall e :: e in rest ==> !Between(p.attributes, x, e, NormalAttribute(x))
  {
    var y := NormalAttribute(x);
    DefaultIsNormal(x);
    assert OneUnspelled(rest, x, y, NormalAttribute);
    SpellingsSortAlikeIff(rest, x, y, p.attributes, NormalAttribute);
    SameSortedRearranged(predicted, rest + [x], p.attributes);
    SameSortedRearranged(reloaded, rest + [y], p.attributes);
    EquivalentIffSameNormalForm(CanonicalOrder(before.(attributes := reloaded), p), CanonicalOrder(before.(attributes := predicted), p));
    hide SortedByContent, Map, NormalAttribute, NormalOption, NormalRelation, NormalSet, EquivalentResourceCatalogs, TellsApart, OneUnspelled, Between;
  }

  // ----- validity of the reload -----

  /** Some option belongs to the default set. */
  predicate DefaultSetInUse(c: ResourceCatalog) { HasOptionSet(c, DEFAULT_OPTION_SET) }

  lemma BindingsAside(c: ResourceCatalog, attributes: seq<ResourceAttribute>, a: ResourceAttribute)
    ensures AttributeValid(c.(attributes := attributes), a) <==> AttributeValid(c, a)
  {
    var d := c.(attributes := attributes);
    assert HasFamilyIn(d, a.classCode, a.familyCode) <==> HasFamilyIn(c, a.classCode, a.familyCode);
    assert HasTypeIn(d, a.classCode, a.familyCode, a.typeCode) <==> HasTypeIn(c, a.classCode, a.familyCode, a.typeCode);
    assert HasOptionSet(d, a.optionSet) <==> HasOptionSet(c, a.optionSet);
    hide HasFamilyIn, HasTypeIn, HasOptionSet;
  }

  lemma ValidByBindings(c: ResourceCatalog, attributes: seq<ResourceAttribute>)
    requires Valid(c)
    ensures Valid(c.(attributes := attributes)) <==> forall a :: a in attributes ==> AttributeValid(c, a) && RulesValid(a)
  {
    var d := c.(attributes := attributes);
    forall a | a in attributes ensures AttributeValid(d, a) <==> AttributeValid(c, a) { BindingsAside(c, attributes, a); }
    RestOfValid(c, attributes);
    hide AttributeValid, RulesValid, FamiliesKnown, TypesValid, PoliciesKnown, ClassesValid, FamiliesUnique, UnitsValid, HierarchyValid;
  }

  lemma RestOfValid(c: ResourceCatalog, attributes: seq<ResourceAttribute>)
    ensures var d := c.(attributes := attributes);
      && (FamiliesKnown(d) <==> FamiliesKnown(c)) && (TypesValid(d) <==> TypesValid(c)) && (PoliciesKnown(d) <==> PoliciesKnown(c))
      && (ClassesValid(d) <==> ClassesValid(c)) && (FamiliesUnique(d) <==> FamiliesUnique(c)) && (UnitsValid(d) <==> UnitsValid(c))
      && (HierarchyValid(d) <==> HierarchyValid(c))
  {
    var d := c.(attributes := attributes);
    hide Canonical, FamilyKey, ClassActive, FamilyActive, KeysUnique, UnitFilled, ClassNamed, FamilyIs;
    assert forall code :: HasClassCode(d, code) <==> HasClassCode(c, code);
    assert forall code :: HasUnitCode(d, code) <==> HasUnitCode(c, code);
    assert forall k, f :: HasFamilyIn(d, k, f) <==> HasFamilyIn(c, k, f);
  }

  /** The stored binding is valid where the unspelled one was, provided the default set is in use. */
  lemma UnspelledValidIff(c: ResourceCatalog, rest: seq<ResourceAttribute>, x: ResourceAttribute, reloaded: seq<ResourceAttribute>)
    requires Valid(c) && x.optionSet == ""
    requires multiset(c.attributes) == multiset(rest + [x]) && multiset(reloaded) == multiset(rest + [NormalAttribute(x)])
    ensures Valid(c.(attributes := reloaded)) <==> DefaultSetInUse(c)
  {
    var y := NormalAttribute(x);
    DefaultIsNormal(x);
    ValidByBindings(c, reloaded);
    forall e ensures e in c.attributes <==> e in rest || e == x { RearrangedMember(c.attributes, rest + [x], e); }
    forall e ensures e in reloaded <==> e in rest || e == y { RearrangedMember(reloaded, rest + [y], e); }
    assert AttributesKnown(c) && ModesMatchRules(c);
    assert x in c.attributes && y in reloaded;
    hide FamiliesKnown, TypesValid, PoliciesKnown, ClassesValid, FamiliesUnique, UnitsValid, HierarchyValid, HasFamilyIn, HasTypeIn, HasOptionSet, NormalAttribute, Valid;
  }

  // ----- the transaction -----

  /** A write of a binding whose record names no option set, which the statements perform. */
  predicate UnspelledWrite(db: Db, w: Write, env: Environment) {
    && (w.InsertRow? || w.UpdateRow?) && KindOf(w) == KindBinding && w.record.rules.Some? && RefOf(w.record, "optionSet") == ""
    && Unbroken(w, env.fault) && BuildMutation(db, w).Ok? && env.physical.Performed? && RowError(db, w, env.physical).None?
  }

  /** The binding the mutation engine predicts. */
  function Predicted(db: Db, w: Write): ResourceAttribute
    requires w.InsertRow? || w.UpdateRow?
  {
    BindingFrom(db.catalog, w.record)
  }

  /** The elements an insert or update leaves alone. */
  function Others<T>(s: seq<T>, op: Op, matches: T -> bool): seq<T> {
    var i := IndexOf(s, matches);
    if op == Insert || i < 0 then s else s[..i] + s[i + 1..]
  }

  /** The bindings the write leaves alone. */
  function Untouched(db: Db, w: Write): seq<ResourceAttribute> {
    if BuildMutation(db, w).Ok? then
      var m := BuildMutation(db, w).value; Others(db.catalog.attributes, m.op, BindingMatcher(m.record))
    else db.catalog.attributes
  }

  /** The reload shows the binding under the default set and everything else as it was. */
  predicate FaithfulReload(db: Db, w: Write, env: Environment)
    requires (w.InsertRow? || w.UpdateRow?) && env.physical.Performed?
  {
    && env.physical.catalog == db.catalog.(attributes := env.physical.catalog.attributes)
    && multiset(env.physical.catalog.attributes) == multiset(Untouched(db, w) + [NormalAttribute(Predicted(db, w))])
  }

  lemma BindingMutation(c: ResourceCatalog, m: CatalogMutation)
    requires m.record.kind == KindBinding && (m.op == Insert || m.op == Update) && ApplyCatalogMutation(c, m).Ok?
    ensures var b := if m.replacement.Some? then m.replacement.value else m.record;
      var next := Mutated(c.attributes, m.op, BindingMatcher(m.record), BindingFrom(c, b), BindingWithActive);
      next.Ok? && ApplyCatalogMutation(c, m).value == c.(attributes := next.value)
  {
    hide BindingMatcher, ApplicabilityError, BindingFrom, Mutated;
  }

  lemma ReplacedRearranges<T>(s: seq<T>, i: nat, x: T)
    requires i < |s|
    ensures multiset(s[i := x]) == multiset(s[..i] + s[i + 1..] + [x])
    ensures forall e :: e in s[..i] + s[i + 1..] ==> e in s
  {
    assert s[i := x] == s[..i] + [x] + s[i + 1..];
  }

  lemma MutationOfWrite(db: Db, w: Write, env: Environment)
    requires UnspelledWrite(db, w, env)
    ensures var m := BuildMutation(db, w).value;
      && m.record.kind == KindBinding && m.op == (if w.InsertRow? then Insert else Update)
      && (if m.replacement.Some? then m.replacement.value else m.record) == w.record
  {
    hide RowError, RefOf;
  }

  lemma OthersAndBuilt<T>(s: seq<T>, op: Op, matches: T -> bool, built: T, withActive: (T, bool) -> T)
    requires (op == Insert || op == Update) && Mutated(s, op, matches, built, withActive).Ok?
    ensures multiset(Mutated(s, op, matches, built, withActive).value) == multiset(Others(s, op, matches) + [built])
    ensures forall e :: e in Others(s, op, matches) ==> e in s
  {
    SliceShape(s, op, matches, built, withActive);
    hide Mutated, IndexOf;
    if op == Update { ReplacedRearranges(s, IndexOf(s, matches), built); }
  }

  lemma OthersAndOne(c: ResourceCatalog, m: CatalogMutation, b: Record)
    requires m.record.kind == KindBinding && (m.op == Insert || m.op == Update) && ApplyCatalogMutation(c, m).Ok?
    requires b == if m.replacement.Some? then m.replacement.value else m.record
    ensures var candidate, rest := ApplyCatalogMutation(c, m).value, Others(c.attributes, m.op, BindingMatcher(m.record));
      && candidate == c.(attributes := candidate.attributes)
      && multiset(candidate.attributes) == multiset(rest + [BindingFrom(c, b)])
      && forall e :: e in rest ==> e in c.attributes
  {
    BindingMutation(c, m);
    hide ApplyCatalogMutation, BindingFrom, BindingMatcher, Mutated, Others;
    OthersAndBuilt(c.attributes, m.op, BindingMatcher(m.record), BindingFrom(c, b), BindingWithActive);
  }

  lemma PredictedBindings(db: Db, w: Write, env: Environment)
    requires UnspelledWrite(db, w, env) && ApplyCatalogMutation(db.catalog, BuildMutation(db, w).value).Ok?
    ensures var candidate := ApplyCatalogMutation(db.catalog, BuildMutation(db, w).value).value;
      && candidate == db.catalog.(attributes := candidate.attributes)
      && multiset(candidate.attributes) == multiset(Untouched(db, w) + [Predicted(db, w)])
    ensures forall e :: e in Untouched(db, w) ==> e in db.catalog.attributes
  {
    hide ApplyCatalogMutation, BindingFrom, RowError, BuildMutation, RefOf, Others, Unbroken;
    MutationOfWrite(db, w, env);
    OthersAndOne(db.catalog, BuildMutation(db, w).value, w.record);
  }

  lemma PredictedIsUnspelled(db: Db, w: Write, env: Environment)
    requires UnspelledWrite(db, w, env)
    ensures Predicted(db, w).optionSet == ""
  {
    hide RefOf, TextOf, FlagOf, ParseMode, DefinitionFor, RowError, BuildMutation;
  }

  /** What is left to decide once the statements have performed the write. */
  lemma LandsOn(db: Db, w: Write, env: Environment, p: Printer)
    requires UnspelledWrite(db, w, env) && ApplyCatalogMutation(db.catalog, BuildMutation(db, w).value).Ok?
    ensures Lands(db, w, env, p) <==>
      Valid(env.physical.catalog) && Agree(env.physical.catalog, ApplyCatalogMutation(db.catalog, BuildMutation(db, w).value).value, p)
  {
    hide Valid, Agree, ApplyCatalogMutation, BuildMutation, RowError, RefOf;
  }

  /** Inserting or updating a binding without naming its option set, the statements storing the default
      set: the transaction reaches its commit exactly when some option belongs to the default set and
      no other binding prints strictly between the two spellings. */
  lemma UnspelledBindingLandsIff(db: Db, w: Write, env: Environment, p: Printer)
    requires UnspelledWrite(db, w, env) && SpelledOut(db.catalog) && FaithfulReload(db, w, env)
    requires var candidate := ApplyCatalogMutation(db.catalog, BuildMutation(db, w).value); candidate.Ok? && Valid(candidate.value)
    requires var rest, x := Untouched(db, w), Predicted(db, w);
      TellsApart(rest + [x], p.attributes) && TellsApart(rest + [NormalAttribute(x)], p.attributes)
    ensures Lands(db, w, env, p) <==>
      DefaultSetInUse(db.catalog) && forall e :: e in Untouched(db, w) ==> !Between(p.attributes, Predicted(db, w), e, NormalAttribute(Predicted(db, w)))
  {
    PredictedBindings(db, w, env);
    PredictedIsUnspelled(db, w, env);
    LandsOn(db, w, env, p);
    hide UnspelledWrite, Lands, Valid, Agree, ApplyCatalogMutation, Untouched, Predicted, NormalAttribute, BuildMutation, TellsApart, Between, DefaultSetInUse;
    var rest, x := Untouched(db, w), Predicted(db, w);
    var candidate := ApplyCatalogMutation(db.catalog, BuildMutation(db, w).value).value;
    var reloaded := env.physical.catalog.attributes;
    assert candidate.(attributes := reloaded) == env.physical.catalog;
    UnspelledValidIff(candidate, rest, x, reloaded);
    SameDefaultSet(candidate, db.catalog);
    UnspelledAgreesIff(db.catalog, rest, x, candidate.attributes, reloaded, p);
  }

  lemma SameDefaultSet(c: ResourceCatalog, d: ResourceCatalog)
    requires c.options == d.options
    ensures DefaultSetInUse(c) <==> DefaultSetInUse(d)
  {}
}

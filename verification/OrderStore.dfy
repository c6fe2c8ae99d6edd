/** Planning and storing an attribute order: the baseline is matched with the persisted bindings, the
    request is checked against the current token, and the accepted ids replace the saved ones. */
module OrderStore {
  import opened Text
  import opened Sorting
  import opened Catalog
  import opened Resource
  import opened Evaluator
  import opened EvaluatorLaws
  import opened AttributeOrder

  datatype WriteRequest = WriteRequest(scope: ResourceScope, ordered: seq<Key>, expected: OrderRevision)

  datatype Plan = Plan(keys: seq<Key>, ids: seq<int>)

  // ----- members by key -----

  /** Members by key, a later one replacing an earlier one. */
  function ByKey(members: seq<Member>): map<Key, Member> {
    if members == [] then map[]
    else ByKey(members[..|members| - 1])[members[|members| - 1].key := members[|members| - 1]]
  }

  lemma {:induction false} ByKeyFacts(members: seq<Member>)
    ensures forall k :: k in ByKey(members) <==> k in Map(KeyOf, members)
    ensures forall k :: k in ByKey(members) ==> ByKey(members)[k] in members && ByKey(members)[k].key == k
  {
    if members != [] {
      var n := |members| - 1;
      ByKeyFacts(members[..n]);
      assert members == members[..n] + [members[n]];
      assert Map(KeyOf, members) == Map(KeyOf, members[..n]) + [members[n].key];
    }
  }

  /** The map is as large as the list exactly when no key repeats. */
  lemma ByKeySize(members: seq<Member>)
    ensures |ByKey(members)| == |members| <==> Distinct(Map(KeyOf, members))
  {
    var keys := Map(KeyOf, members);
    ByKeyFacts(members);
    assert ByKey(members).Keys == set k | k in keys;
    if Distinct(keys) { DistinctSize(keys); }
    if |ByKey(members)| == |members| { FullSetDistinct(keys); }
  }

  function Lookup(members: seq<Member>): Key -> Member {
    (k: Key) => if k in ByKey(members) then ByKey(members)[k] else Member(k, 0, 0)
  }

  /** With no key repeated, looking a member up by its own key finds it. */
  lemma LookupOwn(members: seq<Member>)
    requires Distinct(Map(KeyOf, members))
    ensures Map(Lookup(members), Map(KeyOf, members)) == members
  {
    var keys := Map(KeyOf, members);
    ByKeyFacts(members);
    forall i | 0 <= i < |members| ensures Lookup(members)(keys[i]) == members[i] {
      assert keys[i] in keys;
      var m := ByKey(members)[keys[i]];
      var j :| 0 <= j < |members| && members[j] == m;
      assert keys[j] == keys[i];
    }
  }

  method IndexByKey(members: seq<Member>) returns (byKey: map<Key, Member>)
    ensures byKey == ByKey(members)
  {
    byKey := map[];
    for i := 0 to |members|
      invariant byKey == ByKey(members[..i])
    {
      assert members[..i + 1][..i] == members[..i];
      byKey := byKey[members[i].key := members[i]];
    }
    assert members[..|members|] == members;
  }

  // ----- the baseline -----

  function EffectiveKey(x: EffectiveAttribute): Key {
    Key(x.sourceLevel, x.sourceCode, x.attribute.definition.code)
  }

  lemma NothingFits(c: ResourceCatalog, scope: ResourceScope)
    ensures Evaluation(c, scope, []).Ok?
  {
    hide StableSort, Map, Bindings;
  }

  /** The keys of the effective attributes, in evaluation order. */
  ghost function EffectiveKeys(c: ResourceCatalog, scope: ResourceScope): seq<Key> {
    NothingFits(c, scope);
    Map(EffectiveKey, Evaluation(c, scope, []).value)
  }

  /** Every effective occurrence has exactly one persisted binding. */
  predicate BaselineFits(effective: seq<Key>, members: seq<Member>) {
    && Distinct(Map(KeyOf, members)) && |members| == |effective|
    && forall k :: k in effective ==> k in ByKey(members)
  }

  function Baseline(effective: seq<Key>, members: seq<Member>): seq<Member> {
    Map(Lookup(members), effective)
  }

  method BaselineMembers(c: ResourceCatalog, scope: ResourceScope, members: seq<Member>) returns (r: Result<seq<Member>>)
    ensures r.Ok? <==> BaselineFits(EffectiveKeys(c, scope), members)
    ensures r.Ok? ==> r.value == Baseline(EffectiveKeys(c, scope), members)
    ensures r.Err? ==> r.error == Validation
  {
    hide Evaluation, ByKey;
    NothingFits(c, scope);
    var effective := EffectiveAttributesFor(c, scope, []);
    ghost var keys := EffectiveKeys(c, scope);
    var byKey := IndexByKey(members);
    ByKeySize(members);
    if |byKey| != |members| || |byKey| != |effective.value| { return Err(Validation); }
    var baseline: seq<Member> := [];
    for i := 0 to |effective.value|
      invariant |baseline| == i && forall j :: 0 <= j < i ==> keys[j] in byKey && baseline[j] == byKey[keys[j]]
    {
      var key := EffectiveKey(effective.value[i]);
      assert key == keys[i];
      if key !in byKey { return Err(Validation); }
      baseline := baseline + [byKey[key]];
    }
    assert baseline == Baseline(keys, members);
    return Ok(baseline);
  }

  /** A change of layout only rearranges the effective keys: they depend on the bindings alone. */
  lemma LayoutOnlyRearranges(c: ResourceCatalog, d: ResourceCatalog, scope: ResourceScope)
    requires c.attributes == d.attributes
    ensures multiset(EffectiveKeys(c, scope)) == multiset(EffectiveKeys(d, scope))
  {
    hide Evaluation, Resolve, CanonicalList, CanonicalScope, AttributesOf;
    RawKeys(c, scope);
    RawKeys(d, scope);
    assert AttributesOf(c, CanonicalScope(scope)) == AttributesOf(d, CanonicalScope(scope)) by { SameApplicable(c, d, CanonicalScope(scope)); }
  }

  lemma SameApplicable(c: ResourceCatalog, d: ResourceCatalog, s: ResourceScope)
    requires c.attributes == d.attributes
    ensures AttributesOf(c, s) == AttributesOf(d, s)
  {}

  function BindingKey(s: ResourceScope): ResourceAttribute -> Key {
    (a: ResourceAttribute) => if a.typeCode != "" then Key(TYPE_LEVEL, a.typeCode, a.definition.code) else Key(FAMILY_LEVEL, s.familyCode, a.definition.code)
  }

  lemma RawKeys(c: ResourceCatalog, scope: ResourceScope)
    ensures var s := CanonicalScope(scope); multiset(EffectiveKeys(c, scope)) == multiset(Map(BindingKey(s), AttributesOf(c, s)))
  {
    NothingFits(c, scope);
    EvaluationEntries(c, scope, []);
    hide Evaluation, CanonicalList, CanonicalScope, AttributesOf, Effective, PositionOf, ValidOptionsOf, ValuesFit;
    var s := CanonicalScope(scope);
    var raw := Map(Resolver(c, s, CanonicalList(c, Bindings(c.attributes, s), [])), AttributesOf(c, s));
    MapKeepsRearrangement(EffectiveKey, Evaluation(c, scope, []).value, raw);
    assert Map(EffectiveKey, raw) == Map(BindingKey(s), AttributesOf(c, s));
  }

  /** The key names the applicable binding it comes from: its level, the family or type that declares it,
      and its characteristic. */
  predicate NamesBinding(k: Key, a: ResourceAttribute, scope: ResourceScope) {
    && ScopeMatches(CanonicalScope(scope), a.classCode, a.familyCode, a.typeCode) && k.characteristic == a.definition.code
    && (a.typeCode == "" ==> k.sourceLevel == "FAMILY" && k.sourceCode == Canonical(scope.familyCode))
    && (a.typeCode != "" ==> k.sourceLevel == "TYPE" && k.sourceCode == a.typeCode)
  }

  /** The effective keys are exactly those of the applicable bindings, as many as there are of them. */
  lemma EffectiveKeysMean(c: ResourceCatalog, scope: ResourceScope, k: Key)
    ensures k in EffectiveKeys(c, scope) <==> exists a :: a in c.attributes && NamesBinding(k, a, scope)
    ensures |EffectiveKeys(c, scope)| == |AttributesOf(c, CanonicalScope(scope))|
  {
    RawKeys(c, scope);
    hide EffectiveKeys, Canonical, CanonicalAttribute, ScopeMatches;
    var s := CanonicalScope(scope);
    var own := AttributesOf(c, s);
    var keys := Map(BindingKey(s), own);
    RearrangedMember(EffectiveKeys(c, scope), keys, k);
    RearrangedLength(EffectiveKeys(c, scope), keys);
    if k in keys {
      var i :| 0 <= i < |keys| && keys[i] == k;
      assert own[i] in own && NamesBinding(k, own[i], scope);
    }
    if a :| a in c.attributes && NamesBinding(k, a, scope) {
      assert a in own;
      var i :| 0 <= i < |own| && own[i] == a;
      assert keys[i] == k;
    }
  }

  // ----- the plan -----

  function OnBaseline(effective: seq<Key>, state: OrderState): OrderState {
    state.(members := Baseline(effective, state.members))
  }

  /** The state can be read. */
  predicate Readable(scope: ResourceScope, effective: seq<Key>, state: OrderState) {
    BaselineFits(effective, state.members) && Resolvable(scope, OnBaseline(effective, state))
  }

  function Reading(scope: ResourceScope, effective: seq<Key>, state: OrderState): Snapshot
    requires Readable(scope, effective, state)
  {
    Resolved(ExactScope(scope).value, OnBaseline(effective, state))
  }

  /** The request is current and asks for an exact permutation. */
  predicate Acceptable(scope: ResourceScope, effective: seq<Key>, state: OrderState, req: WriteRequest) {
    && Readable(scope, effective, state)
    && req.expected == Reading(scope, effective, state).revision
    && IsPermutation(Reading(scope, effective, state), req.ordered)
  }

  /** A readable state under another token is a conflict; everything else is invalid. */
  function PlanError(scope: ResourceScope, effective: seq<Key>, state: OrderState, req: WriteRequest): Error {
    if Readable(scope, effective, state) && req.expected != Reading(scope, effective, state).revision then RevisionConflict else Validation
  }

  function AcceptedKeys(req: WriteRequest): seq<Key> { Map(CanonicalKey, req.ordered) }

  function AcceptedIds(effective: seq<Key>, state: OrderState, req: WriteRequest): seq<int> {
    Map(IdOf, Map(Lookup(Map(CanonicalMember, Baseline(effective, state.members))), AcceptedKeys(req)))
  }

  function PlanFor(effective: seq<Key>, state: OrderState, req: WriteRequest): Plan {
    Plan(AcceptedKeys(req), AcceptedIds(effective, state, req))
  }

  /** The accepted keys are all keys of baseline members, so every one resolves to a binding. */
  lemma AcceptedKeysResolve(scope: ResourceScope, effective: seq<Key>, state: OrderState, req: WriteRequest)
    requires Acceptable(scope, effective, state, req)
    ensures var members := Map(CanonicalMember, Baseline(effective, state.members));
      && Distinct(Map(KeyOf, members)) && multiset(AcceptedKeys(req)) == multiset(Map(KeyOf, members))
      && forall k :: k in AcceptedKeys(req) ==> k in ByKey(members)
  {
    hide CanonicalKey, CanonicalScope, Belongs, Overlay, Baseline, BaselineFits, ByKey;
    var state' := OnBaseline(effective, state);
    ResolvedIsDistinct(scope, state');
    var members := Map(CanonicalMember, state'.members);
    ByKeyFacts(members);
    forall k | k in AcceptedKeys(req) ensures k in ByKey(members) {
      RearrangedMember(AcceptedKeys(req), Map(KeyOf, members), k);
    }
  }

  /** An accepted plan stores every binding of the scope exactly once. */
  lemma AcceptedIdsArePermutation(scope: ResourceScope, effective: seq<Key>, state: OrderState, req: WriteRequest)
    requires Acceptable(scope, effective, state, req)
    ensures multiset(AcceptedIds(effective, state, req)) == multiset(Map(IdOf, state.members))
    ensures Distinct(AcceptedIds(effective, state, req))
    ensures multiset(Baseline(effective, state.members)) == multiset(state.members)
  {
    AcceptedKeysResolve(scope, effective, state, req);
    BaselineIsPermutation(effective, state.members);
    hide CanonicalKey, CanonicalScope, Belongs, Overlay, Baseline, ByKey, Lookup, IsPermutation, Resolved, BaselineFits;
    var members := Map(CanonicalMember, Baseline(effective, state.members));
    var look := Lookup(members);
    var keys := Map(KeyOf, members);
    LookupOwn(members);
    MapKeepsRearrangement(look, AcceptedKeys(req), keys);
    MapKeepsRearrangement(IdOf, Map(look, AcceptedKeys(req)), members);
    assert Map(IdOf, members) == Map(IdOf, Baseline(effective, state.members));
    MapKeepsRearrangement(IdOf, Baseline(effective, state.members), state.members);
    RearrangedDistinct(AcceptedIds(effective, state, req), Map(IdOf, members));
  }

  /** A baseline without repeated bindings uses every persisted binding. */
  lemma BaselineIsPermutation(effective: seq<Key>, members: seq<Member>)
    requires BaselineFits(effective, members) && Distinct(Map(IdOf, Baseline(effective, members)))
    ensures multiset(Baseline(effective, members)) == multiset(members)
  {
    hide ByKey;
    var baseline := Baseline(effective, members);
    MembersDistinct(baseline);
    ByKeyFacts(members);
    forall m | m in baseline ensures m in members {
      var i :| 0 <= i < |baseline| && baseline[i] == m;
      assert effective[i] in effective;
    }
    DrawnAll(baseline, members);
  }

  /** planAttributeOrderWrite.  The guard for a key without a binding is never taken. */
  method PlanAttributeOrderWrite(c: ResourceCatalog, scope: ResourceScope, state: OrderState, req: WriteRequest) returns (r: Result<Plan>)
    ensures var effective := EffectiveKeys(c, scope);
      && (r.Ok? <==> Acceptable(scope, effective, state, req))
      && (r.Ok? ==> r.value == PlanFor(effective, state, req))
      && (r.Err? ==> r.error == PlanError(scope, effective, state, req))
  {
    hide EffectiveKeys, BaselineFits, Baseline, Resolvable, Resolved, IsPermutation, CanonicalKey, ByKey, Consistent, CanonicalScope;
    var baseline := BaselineMembers(c, scope, state.members);
    if baseline.Err? { return Err(baseline.error); }
    var current := ResolveAttributeOrder(scope, state.(members := baseline.value));
    if current.Err? { return Err(current.error); }
    if req.expected != current.value.revision { return Err(RevisionConflict); }
    var keys := ValidatePermutation(current.value, req.ordered);
    if keys.Err? { return Err(keys.error); }
    AcceptedKeysResolve(scope, EffectiveKeys(c, scope), state, req);
    var ids := ResolveIds(baseline.value, keys.value);
    return Ok(Plan(keys.value, ids));
  }

  method ResolveIds(baseline: seq<Member>, keys: seq<Key>) returns (ids: seq<int>)
    requires forall k :: k in keys ==> k in ByKey(Map(CanonicalMember, baseline))
    ensures ids == Map(IdOf, Map(Lookup(Map(CanonicalMember, baseline)), keys))
  {
    hide CanonicalKey;
    var byKey: map<Key, int> := map[];
    ghost var all := ByKey(Map(CanonicalMember, baseline));
    for i := 0 to |baseline|
      invariant byKey.Keys == ByKey(Map(CanonicalMember, baseline[..i])).Keys
      invariant forall k :: k in byKey ==> byKey[k] == ByKey(Map(CanonicalMember, baseline[..i]))[k].id
    {
      var before, now := Map(CanonicalMember, baseline[..i]), Map(CanonicalMember, baseline[..i + 1]);
      assert now[..i] == before && now[i] == CanonicalMember(baseline[i]);
      byKey := byKey[CanonicalKey(baseline[i].key) := baseline[i].id];
    }
    assert baseline[..|baseline|] == baseline;
    ids := [];
    for i := 0 to |keys|
      invariant |ids| == i && forall j :: 0 <= j < i ==> ids[j] == Lookup(Map(CanonicalMember, baseline))(keys[j]).id
    {
      assert keys[i] in keys;
      ids := ids + [byKey[keys[i]]];
    }
  }

  // ----- write, then read -----

  lemma ConsistentRearranged(s: ResourceScope, a: seq<Member>, b: seq<Member>)
    requires Consistent(s, a) && multiset(a) == multiset(b)
    ensures Consistent(s, b)
  {
    hide CanonicalKey, Belongs;
    MapKeepsRearrangement(CanonicalMember, a, b);
    MapKeepsRearrangement(KeyOf, Map(CanonicalMember, a), Map(CanonicalMember, b));
    MapKeepsRearrangement(IdOf, a, b);
    RearrangedDistinct(KeysOf(a), KeysOf(b));
    RearrangedDistinct(Map(IdOf, a), Map(IdOf, b));
    forall m | m in b ensures m in a { RearrangedMember(a, b, m); }
  }

  /** The state stays readable when the layout rearranges the baseline and a write replaces the saved
      ids and the head. */
  lemma StillReadable(scope: ResourceScope, effective: seq<Key>, state: OrderState, effective': seq<Key>, head: nat, saved: seq<int>)
    requires Readable(scope, effective, state) && multiset(effective') == multiset(effective)
    ensures Readable(scope, effective', state.(head := head, saved := saved))
    ensures multiset(Baseline(effective', state.members)) == multiset(Baseline(effective, state.members))
  {
    hide CanonicalKey, CanonicalScope, Belongs, ByKey, Lookup, Consistent;
    MapKeepsRearrangement(Lookup(state.members), effective', effective);
    ConsistentRearranged(ExactScope(scope).value, Baseline(effective, state.members), Baseline(effective', state.members));
    RearrangedLength(effective', effective);
    forall k | k in effective' ensures k in effective { RearrangedMember(effective', effective, k); }
  }

  /** Members of one list are known by their ids. */
  lemma SameById(pool: seq<Member>, a: seq<Member>, b: seq<Member>)
    requires Distinct(Map(IdOf, pool)) && Map(IdOf, a) == Map(IdOf, b)
    requires (forall m :: m in a ==> m in pool) && forall m :: m in b ==> m in pool
    ensures a == b
  {
    var ids := Map(IdOf, pool);
    assert |a| == |Map(IdOf, a)| && |b| == |Map(IdOf, b)|;
    forall i | 0 <= i < |a| ensures a[i] == b[i] {
      assert a[i] in a && b[i] in b && Map(IdOf, a)[i] == Map(IdOf, b)[i];
      var j :| 0 <= j < |pool| && pool[j] == a[i];
      var k :| 0 <= k < |pool| && pool[k] == b[i];
      assert ids[j] == ids[k];
    }
  }

  /** Once a plan is accepted, reading back with its ids saved gives exactly the accepted keys, for
      any layout of the same occurrences and any head. */
  lemma WriteThenRead(scope: ResourceScope, effective: seq<Key>, state: OrderState, req: WriteRequest, effective': seq<Key>, head: nat)
    requires Acceptable(scope, effective, state, req) && multiset(effective') == multiset(effective)
    ensures var state' := state.(head := head, saved := AcceptedIds(effective, state, req));
      Readable(scope, effective', state') && Reading(scope, effective', state').ordered == AcceptedKeys(req)
  {
    var ids := AcceptedIds(effective, state, req);
    StillReadable(scope, effective, state, effective', head, ids);
    AcceptedKeysResolve(scope, effective, state, req);
    AcceptedIdsArePermutation(scope, effective, state, req);
    OrderReadBack(Baseline(effective, state.members), Baseline(effective', state.members), AcceptedKeys(req));
  }

  lemma OrderReadBack(old_: seq<Member>, new_: seq<Member>, keys: seq<Key>)
    requires multiset(old_) == multiset(new_) && Distinct(Map(IdOf, old_)) && Distinct(KeysOf(old_))
    requires multiset(keys) == multiset(KeysOf(old_))
    ensures var was, now := Map(CanonicalMember, old_), Map(CanonicalMember, new_);
      Map(KeyOf, Overlay(now, Map(IdOf, Map(Lookup(was), keys)))) == keys
  {
    var was, now := Map(CanonicalMember, old_), Map(CanonicalMember, new_);
    var chosen := Map(Lookup(was), keys);
    var ids := Map(IdOf, chosen);
    ChosenMembers(was, keys);
    assert Map(IdOf, was) == Map(IdOf, old_) && Map(IdOf, now) == Map(IdOf, new_);
    hide CanonicalKey, Overlay, Lookup, Rank;
    MapKeepsRearrangement(CanonicalMember, old_, new_);
    MapKeepsRearrangement(IdOf, old_, new_);
    RearrangedDistinct(Map(IdOf, old_), Map(IdOf, new_));
    MapKeepsRearrangement(IdOf, chosen, was);
    SavedPermutationDictates(now, ids);
    OverlayIsOrderedPermutation(now, ids);
    var r := Overlay(now, ids);
    forall m | m in r ensures m in was { RearrangedMember(r, was, m); }
    forall m | m in chosen ensures m in was { RearrangedMember(chosen, was, m); }
    SameById(was, r, chosen);
  }

  lemma ChosenMembers(members: seq<Member>, keys: seq<Key>)
    requires Distinct(Map(KeyOf, members)) && multiset(keys) == multiset(Map(KeyOf, members))
    ensures multiset(Map(Lookup(members), keys)) == multiset(members)
    ensures Map(KeyOf, Map(Lookup(members), keys)) == keys
  {
    LookupOwn(members);
    MapKeepsRearrangement(Lookup(members), keys, Map(KeyOf, members));
    ByKeyFacts(members);
    forall i | 0 <= i < |keys| ensures Lookup(members)(keys[i]).key == keys[i] {
      assert keys[i] in keys;
      RearrangedMember(keys, Map(KeyOf, members), keys[i]);
    }
  }

  // ----- old tokens -----

  lemma BaselineCanonical(scope: ResourceScope, effective: seq<Key>, state: OrderState)
    requires Readable(scope, effective, state)
    ensures multiset(Map(CanonicalMember, Baseline(effective, state.members))) == multiset(Map(CanonicalMember, state.members))
    ensures Distinct(Map(IdOf, state.members))
  {
    hide CanonicalKey, CanonicalScope, Belongs, ByKey, Lookup;
    var baseline := Baseline(effective, state.members);
    assert Distinct(Map(IdOf, baseline));
    BaselineIsPermutation(effective, state.members);
    MapKeepsRearrangement(CanonicalMember, baseline, state.members);
    MapKeepsRearrangement(IdOf, baseline, state.members);
    RearrangedDistinct(Map(IdOf, baseline), Map(IdOf, state.members));
  }

  /** A request under a token that was read in another state - of another type, at another head, or with
      other members - is a revision conflict, whatever it asks for. */
  lemma OldTokenConflicts(scope: ResourceScope, effective: seq<Key>, state: OrderState,
      scope': ResourceScope, effective': seq<Key>, was: OrderState, req: WriteRequest)
    requires Readable(scope, effective, state) && Readable(scope', effective', was)
    requires req.expected == Reading(scope', effective', was).revision
    requires state.typeId != was.typeId || state.head != was.head ||
      multiset(Map(CanonicalMember, state.members)) != multiset(Map(CanonicalMember, was.members))
    ensures !Acceptable(scope, effective, state, req) && PlanError(scope, effective, state, req) == RevisionConflict
  {
    hide CanonicalScope, CanonicalKey, Consistent, BaselineFits, Baseline, Overlay, IsPermutation;
    BaselineCanonical(scope, effective, state);
    BaselineCanonical(scope', effective', was);
    if req.expected == Reading(scope, effective, state).revision {
      TokensAgreeIff(scope, OnBaseline(effective, state), scope', OnBaseline(effective', was));
      TokenFixesMembers(scope, OnBaseline(effective, state), scope', OnBaseline(effective', was));
    }
  }

  /** In particular, after one binding has been revised, added or removed. */
  lemma RevisedBindingConflicts(scope: ResourceScope, effective: seq<Key>, state: OrderState,
      scope': ResourceScope, effective': seq<Key>, was: OrderState, req: WriteRequest, m: Member)
    requires Readable(scope, effective, state) && Readable(scope', effective', was)
    requires req.expected == Reading(scope', effective', was).revision && m in was.members
    requires forall n :: n in state.members && n.id == m.id ==> n.revision != m.revision
    ensures PlanError(scope, effective, state, req) == RevisionConflict
  {
    hide Readable, Reading, Acceptable, PlanError, CanonicalKey;
    var x, y := Map(CanonicalMember, state.members), Map(CanonicalMember, was.members);
    CanonicalMemberIn(was.members, m);
    assert forall i :: 0 <= i < |x| ==> state.members[i] in state.members;
    assert CanonicalMember(m) !in multiset(x) && CanonicalMember(m) in multiset(y);
    OldTokenConflicts(scope, effective, state, scope', effective', was, req);
  }

  // ----- the tables -----

  datatype Item = Item(id: int, position: nat)

  predicate PositionAtMost(x: Item, y: Item) { x.position <= y.position }

  function ItemId(x: Item): int { x.id }

  function InPositionOrder(rows: seq<Item>): seq<int> { Map(ItemId, StableSort(rows, PositionAtMost)) }

  /** The head a type has after one more write. */
  function Bumped(heads: map<int, nat>, typeId: int): nat { if typeId in heads then heads[typeId] + 1 else 1 }

  class OrderTables {
    var heads: map<int, nat>
    var items: map<int, seq<Item>>

    function Saved(typeId: int): seq<int>
      reads this
    {
      if typeId in items then InPositionOrder(items[typeId]) else []
    }

    method UpsertHead(typeId: int)
      modifies this`heads
      ensures heads == old(heads)[typeId := Bumped(old(heads), typeId)]
    {
      if typeId in heads { heads := heads[typeId := heads[typeId] + 1]; } else { heads := heads[typeId := 1]; }
    }

    /** Refused when the binding or the position is taken. */
    method InsertItem(typeId: int, id: int, position: nat) returns (ok: bool)
      requires typeId in items
      modifies this`items
      ensures ok <==> forall x :: x in old(items)[typeId] ==> x.id != id && x.position != position
      ensures items == if ok then old(items)[typeId := old(items)[typeId] + [Item(id, position)]] else old(items)
    {
      ok := forall x :: x in items[typeId] ==> x.id != id && x.position != position;
      if ok { items := items[typeId := items[typeId] + [Item(id, position)]]; }
    }

    /** Deletes the saved items, raises the head, and inserts the ids one by one. */
    method ReplaceOrder(typeId: int, ids: seq<int>) returns (ok: bool)
      modifies this
      ensures ok <==> Distinct(ids)
      ensures ok ==> heads == old(heads)[typeId := Bumped(old(heads), typeId)] && Saved(typeId) == ids
      ensures forall other :: other != typeId ==> Saved(other) == old(Saved(other))
    {
      items := items[typeId := []];
      UpsertHead(typeId);
      assert Rows(ids[..0]) == [];
      for i := 0 to |ids|
        invariant heads == old(heads)[typeId := Bumped(old(heads), typeId)]
        invariant items == old(items)[typeId := Rows(ids[..i])] && Distinct(ids[..i])
      {
        RowsTaken(ids, i);
        var inserted := InsertItem(typeId, ids[i], i);
        if !inserted { return false; }
        assert Rows(ids[..i + 1]) == Rows(ids[..i]) + [Item(ids[i], i)];
      }
      assert ids[..|ids|] == ids;
      RowsInOrder(ids);
      return true;
    }
  }

  function Rows(ids: seq<int>): seq<Item> {
    seq(|ids|, i requires 0 <= i < |ids| => Item(ids[i], i))
  }

  lemma RowsTaken(ids: seq<int>, i: nat)
    requires i < |ids| && Distinct(ids[..i])
    ensures (forall x :: x in Rows(ids[..i]) ==> x.id != ids[i] && x.position != i) <==> Distinct(ids[..i + 1])
    ensures Distinct(ids) ==> Distinct(ids[..i + 1])
  {
    var rows := Rows(ids[..i]);
    assert ids[..i + 1] == ids[..i] + [ids[i]];
    DistinctStep(ids[..i], ids[i]);
    if ids[i] in ids[..i] {
      var j :| 0 <= j < i && ids[..i][j] == ids[i];
      assert rows[j] in rows;
    }
  }

  lemma RowsInOrder(ids: seq<int>)
    ensures InPositionOrder(Rows(ids)) == ids
  {
    var rows := Rows(ids);
    StableSortSorts(rows, PositionAtMost);
    var sorted := StableSort(rows, PositionAtMost);
    assert Separates(rows, PositionAtMost);
    SortUnique(rows, sorted, PositionAtMost);
  }

  // ----- the transaction -----

  function HeadOf(heads: map<int, nat>, typeId: int): nat { if typeId in heads then heads[typeId] else 0 }

  /** A type that was never written has head 0, and every accepted write raises its head by one. */
  lemma WritesCount(heads: map<int, nat>, typeId: int)
    ensures typeId !in heads ==> HeadOf(heads, typeId) == 0
    ensures HeadOf(heads[typeId := Bumped(heads, typeId)], typeId) == HeadOf(heads, typeId) + 1
  {}

  method AssembleRead(c: ResourceCatalog, scope: ResourceScope, state: OrderState) returns (r: Result<Snapshot>)
    ensures var effective := EffectiveKeys(c, scope);
      && (r.Ok? <==> Readable(scope, effective, state))
      && (r.Ok? ==> r.value == Reading(scope, effective, state))
      && (r.Err? ==> r.error == Validation)
  {
    hide EffectiveKeys, BaselineFits, Baseline, Resolvable, Resolved;
    var baseline := BaselineMembers(c, scope, state.members);
    if baseline.Err? { return Err(baseline.error); }
    r := ResolveAttributeOrder(scope, state.(members := baseline.value));
  }

  /** What the transaction reads back after storing the accepted ids under `locked`. */
  ghost function AfterWrite(heads: map<int, nat>, savedThere: seq<int>, locked: int, effective: seq<Key>, state: OrderState, req: WriteRequest): OrderState {
    var raised := heads[locked := Bumped(heads, locked)];
    OrderState(state.typeId, HeadOf(raised, state.typeId), state.members,
      if locked == state.typeId then AcceptedIds(effective, state, req) else savedThere)
  }

  /** The statements between taking the locks and the commit.  `locked` is the type row the
      transaction holds, `state.typeId` the one the scope resolves to once all locks are held;
      `before` and `after` are the catalog as loaded before and after the write.  It succeeds exactly
      on acceptable requests that read back as asked.  When both ids agree and the reload differs at
      most in layout, every acceptable request does, under another token: the final comparison never
      fails. */
  method WriteAttributeOrderTx(tables: OrderTables, locked: int, resolved: int, before: ResourceCatalog, after: ResourceCatalog,
      scope: ResourceScope, members: seq<Member>, req: WriteRequest) returns (r: Result<Snapshot>)
    modifies tables
    ensures var effective, effective' := EffectiveKeys(before, scope), EffectiveKeys(after, scope);
      var state := OrderState(resolved, HeadOf(old(tables.heads), resolved), members, old(tables.Saved(resolved)));
      var now := AfterWrite(old(tables.heads), state.saved, locked, effective, state, req);
      && (r.Ok? <==> Acceptable(scope, effective, state, req) && Readable(scope, effective', now) && Reading(scope, effective', now).ordered == AcceptedKeys(req))
      && (r.Ok? ==> r.value == Reading(scope, effective', now) && r.value.ordered == AcceptedKeys(req))
      && (r.Ok? ==> tables.heads == old(tables.heads)[locked := Bumped(old(tables.heads), locked)] && tables.Saved(locked) == AcceptedIds(effective, state, req))
      && (r.Err? ==> r.error == PlanError(scope, effective, state, req))
      && (locked == resolved && multiset(effective') == multiset(effective) ==>
            (r.Ok? <==> Acceptable(scope, effective, state, req)) && (r.Ok? ==> r.value.revision != req.expected))
  {
    hide EffectiveKeys, Readable, Reading, Acceptable, AcceptedKeys, AcceptedIds, InPositionOrder;
    ghost var effective, effective' := EffectiveKeys(before, scope), EffectiveKeys(after, scope);
    var state := OrderState(resolved, HeadOf(tables.heads, resolved), members, tables.Saved(resolved));
    var plan := PlanAttributeOrderWrite(before, scope, state, req);
    if plan.Err? { return Err(plan.error); }
    AcceptedIdsArePermutation(scope, effective, state, req);
    ghost var expected := AfterWrite(tables.heads, state.saved, locked, effective, state, req);
    var ok := tables.ReplaceOrder(locked, plan.value.ids);
    assert ok;
    var now := OrderState(resolved, HeadOf(tables.heads, resolved), members, tables.Saved(resolved));
    assert now == expected;
    var read := AssembleRead(after, scope, now);
    AcceptedIsCurrent(scope, effective, state, req);
    if locked == resolved && multiset(effective') == multiset(effective) {
      WriteThenRead(scope, effective, state, req, effective', now.head);
      TokenMoves(scope, effective, state, req, effective', now);
    }
    if read.Err? { return Err(read.error); }
    if read.value.ordered != plan.value.keys { return Err(Validation); }
    return read;
  }

  lemma AcceptedIsCurrent(scope: ResourceScope, effective: seq<Key>, state: OrderState, req: WriteRequest)
    requires Acceptable(scope, effective, state, req)
    ensures PlanError(scope, effective, state, req) == Validation
  {}

  /** A state with another head has another token. */
  lemma TokenMoves(scope: ResourceScope, effective: seq<Key>, state: OrderState, req: WriteRequest, effective': seq<Key>, now: OrderState)
    requires Acceptable(scope, effective, state, req) && Readable(scope, effective', now) && now.head != state.head
    ensures Reading(scope, effective', now).revision != req.expected
  {}
}

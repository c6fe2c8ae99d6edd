/** The visual order of a type's attributes: saved binding ids laid over the structural baseline,
    and the check that a requested order is an exact permutation. */
module AttributeOrder {
  import opened Text
  import opened Sorting
  import opened Catalog
  import opened Evaluator

  datatype Key = Key(sourceLevel: string, sourceCode: string, characteristic: string)

  datatype Member = Member(key: Key, id: int, revision: nat)

  datatype OrderState = OrderState(typeId: int, head: nat, members: seq<Member>, saved: seq<int>)

  /** The opaque token: what the digest is taken of, or any text that is not such a digest. */
  datatype OrderRevision =
    | Sealed(scope: ResourceScope, typeId: int, head: nat, members: seq<Member>)
    | Foreign(text: string)

  datatype Snapshot = Snapshot(scope: ResourceScope, ordered: seq<Key>, revision: OrderRevision)

  // ----- keys and scopes -----

  predicate Exact(s: ResourceScope) { s.classCode != "" && s.familyCode != "" && s.typeCode != "" }

  function ExactScope(s: ResourceScope): Result<ResourceScope> {
    var c := CanonicalScope(s);
    if Exact(c) then Ok(c) else Err(Validation)
  }

  function CanonicalKey(k: Key): Key {
    Key(Canonical(k.sourceLevel), Canonical(k.sourceCode), CanonicalAttribute(k.characteristic))
  }

  /** A canonical key names an occurrence at the scope's own family or type. */
  predicate Belongs(k: Key, s: ResourceScope) {
    && ((k.sourceLevel == FAMILY_LEVEL && k.sourceCode == s.familyCode) || (k.sourceLevel == TYPE_LEVEL && k.sourceCode == s.typeCode))
    && k.characteristic != ""
  }

  function CanonicalFor(k: Key, s: ResourceScope): Result<Key> {
    if Belongs(CanonicalKey(k), s) then Ok(CanonicalKey(k)) else Err(Validation)
  }

  /** A canonicalized key is accepted as it is. */
  lemma CanonicalForIdempotent(k: Key, s: ResourceScope)
    requires CanonicalFor(k, s).Ok?
    ensures CanonicalFor(CanonicalFor(k, s).value, s) == CanonicalFor(k, s)
  {
    CanonicalIdempotent(k.sourceLevel);
    CanonicalIdempotent(k.sourceCode);
    CanonicalAttributeIdempotent(k.characteristic);
  }

  function IdOf(m: Member): int { m.id }
  function KeyOf(m: Member): Key { m.key }
  function CanonicalMember(m: Member): Member { m.(key := CanonicalKey(m.key)) }

  /** Every member belongs to the scope; no key and no binding occurs twice. */
  predicate Consistent(s: ResourceScope, members: seq<Member>) {
    && (forall m :: m in members ==> Belongs(CanonicalKey(m.key), s) && m.id > 0)
    && Distinct(KeysOf(members))
    && Distinct(Map(IdOf, members))
  }

  // ----- the overlay -----

  function Pool(members: seq<Member>): map<int, Member> {
    if members == [] then map[]
    else Pool(members[..|members| - 1])[members[|members| - 1].id := members[|members| - 1]]
  }

  /** The pooled members in the order in which their ids first occur. */
  function Picked(ids: seq<int>, pool: map<int, Member>): seq<Member> {
    if ids == [] then []
    else
      var n := |ids| - 1;
      var before := Picked(ids[..n], pool);
      if ids[n] in pool && ids[n] !in ids[..n] then before + [pool[ids[n]]] else before
  }

  function Overlay(members: seq<Member>, saved: seq<int>): seq<Member> {
    Picked(saved + Map(IdOf, members), Pool(members))
  }

  function ResolvedMembers(state: OrderState): seq<Member> {
    Overlay(Map(CanonicalMember, state.members), state.saved)
  }

  function Resolved(s: ResourceScope, state: OrderState): Snapshot {
    var ordered := ResolvedMembers(state);
    Snapshot(s, Map(KeyOf, ordered), Sealed(s, state.typeId, state.head, ordered))
  }

  /** What must hold for an order to be resolved at all. */
  predicate Resolvable(scope: ResourceScope, state: OrderState) {
    ExactScope(scope).Ok? && state.typeId > 0 && Consistent(ExactScope(scope).value, state.members)
  }

  lemma ConsistentPrefix(s: ResourceScope, members: seq<Member>, i: nat)
    requires i <= |members| && Consistent(s, members)
    ensures Consistent(s, members[..i])
  {
    hide CanonicalKey, Belongs;
    var a, b := Map(KeyOf, Map(CanonicalMember, members)), KeysOf(members[..i]);
    assert forall j :: 0 <= j < i ==> a[j] == b[j];
    var x, y := Map(IdOf, members), Map(IdOf, members[..i]);
    assert forall j :: 0 <= j < i ==> x[j] == y[j];
  }

  /** One more member stays consistent exactly when it belongs and repeats neither key nor id. */
  lemma ConsistentStep(s: ResourceScope, members: seq<Member>, i: nat)
    requires i < |members| && Consistent(s, members[..i])
    ensures var m := members[i];
      Consistent(s, members[..i + 1]) <==>
        && Belongs(CanonicalKey(m.key), s) && m.id > 0
        && CanonicalKey(m.key) !in KeysOf(members[..i]) && m.id !in Map(IdOf, members[..i])
  {
    hide CanonicalKey, Belongs;
    var before, now, m := members[..i], members[..i + 1], members[i];
    assert now == before + [m];
    var keys, ids := Map(KeyOf, Map(CanonicalMember, before)), Map(IdOf, before);
    assert Map(KeyOf, Map(CanonicalMember, now)) == keys + [CanonicalKey(m.key)];
    assert Map(IdOf, now) == ids + [m.id];
    DistinctStep(keys, CanonicalKey(m.key));
    DistinctStep(ids, m.id);
  }

  lemma DistinctStep<T>(s: seq<T>, x: T)
    requires Distinct(s)
    ensures Distinct(s + [x]) <==> x !in s
  {
    if x in s {
      var i :| 0 <= i < |s| && s[i] == x;
      assert (s + [x])[i] == (s + [x])[|s|];
    }
  }

  function KeysOf(members: seq<Member>): seq<Key> { Map(KeyOf, Map(CanonicalMember, members)) }

  /** How one more member extends the pool, its keys and its ids. */
  lemma PoolStep(members: seq<Member>, i: nat)
    requires i < |members|
    ensures var before, now, m := members[..i], members[..i + 1], members[i];
      && KeysOf(now) == KeysOf(before) + [CanonicalKey(m.key)]
      && Map(IdOf, now) == Map(IdOf, before) + [m.id]
      && Pool(Map(CanonicalMember, now)) == Pool(Map(CanonicalMember, before))[m.id := CanonicalMember(m)]
  {
    hide CanonicalKey;
    var before, now, m := Map(CanonicalMember, members[..i]), Map(CanonicalMember, members[..i + 1]), members[i];
    assert now == before + [CanonicalMember(m)];
    assert now[..i] == before;
    assert KeysOf(members[..i + 1]) == KeysOf(members[..i]) + [CanonicalKey(m.key)];
    assert Map(IdOf, members[..i + 1]) == Map(IdOf, members[..i]) + [m.id];
  }

  /** The pool and the keys seen so far. */
  ghost predicate Pooled(s: ResourceScope, members: seq<Member>, pool: map<int, Member>, keys: set<Key>) {
    && Consistent(s, members) && pool == Pool(Map(CanonicalMember, members))
    && (forall k :: k in keys <==> k in KeysOf(members))
    && (forall id :: id in pool <==> id in Map(IdOf, members))
  }

  lemma PoolGrows(s: ResourceScope, members: seq<Member>, i: nat, pool: map<int, Member>, keys: set<Key>)
    requires i < |members| && Pooled(s, members[..i], pool, keys)
    ensures var m := members[i];
      if CanonicalFor(m.key, s).Ok? && m.id > 0 && CanonicalKey(m.key) !in keys && m.id !in pool then
        Pooled(s, members[..i + 1], pool[m.id := CanonicalMember(m)], keys + {CanonicalKey(m.key)})
      else !Consistent(s, members)
  {
    hide CanonicalKey, Belongs, Consistent, Map, Pool, KeysOf;
    ConsistentStep(s, members, i);
    PoolStep(members, i);
    if Consistent(s, members) { ConsistentPrefix(s, members, i + 1); }
  }

  /** Fills the pool, rejecting a foreign member, a repeated key or a repeated binding. */
  method PoolMembers(s: ResourceScope, members: seq<Member>) returns (r: Result<map<int, Member>>)
    ensures r.Ok? <==> Consistent(s, members)
    ensures r.Ok? ==> r.value == Pool(Map(CanonicalMember, members))
    ensures r.Err? ==> r.error == Validation
  {
    var pool: map<int, Member> := map[];
    var keys: set<Key> := {};
    assert members[..0] == [] && Pooled(s, [], pool, keys);
    hide CanonicalKey, Belongs, Consistent, Map, Pool, KeysOf, Pooled;
    for i := 0 to |members|
      invariant Pooled(s, members[..i], pool, keys)
    {
      var m := members[i];
      PoolGrows(s, members, i, pool, keys);
      var key := CanonicalFor(m.key, s);
      if key.Err? { return Err(key.error); }
      if m.id <= 0 || key.value in keys { return Err(Validation); }
      if m.id in pool { return Err(Validation); }
      pool, keys := pool[m.id := m.(key := key.value)], keys + {key.value};
    }
    assert members[..|members|] == members;
    PooledMeans(s, members, pool, keys);
    return Ok(pool);
  }

  lemma PooledMeans(s: ResourceScope, members: seq<Member>, pool: map<int, Member>, keys: set<Key>)
    requires Pooled(s, members, pool, keys)
    ensures Consistent(s, members) && pool == Pool(Map(CanonicalMember, members))
  {}

  /** Moves the pooled members out in the order their ids come up. */
  method Draw(ids: seq<int>, pool: map<int, Member>) returns (ordered: seq<Member>)
    ensures ordered == Picked(ids, pool)
  {
    ordered := [];
    var left := pool;
    for i := 0 to |ids|
      invariant ordered == Picked(ids[..i], pool)
      invariant left == map id | id in pool && id !in ids[..i] :: pool[id]
    {
      assert ids[..i + 1][..i] == ids[..i];
      var id := ids[i];
      if id in left {
        ordered := ordered + [left[id]];
        left := left - {id};
      }
    }
    assert ids[..|ids|] == ids;
  }

  method ResolveAttributeOrder(scope: ResourceScope, state: OrderState) returns (r: Result<Snapshot>)
    ensures r.Ok? <==> Resolvable(scope, state)
    ensures r.Ok? ==> r.value == Resolved(ExactScope(scope).value, state)
    ensures r.Err? ==> r.error == Validation
  {
    hide Consistent, Picked, Pool, CanonicalKey, CanonicalScope;
    var s := ExactScope(scope);
    if s.Err? { return Err(s.error); }
    if state.typeId <= 0 { return Err(Validation); }
    var pool := PoolMembers(s.value, state.members);
    if pool.Err? { return Err(pool.error); }
    var ids := state.saved + Map(IdOf, state.members);
    var ordered := Draw(ids, pool.value);
    assert Map(IdOf, Map(CanonicalMember, state.members)) == Map(IdOf, state.members);
    var keys := seq(|ordered|, i requires 0 <= i < |ordered| => ordered[i].key);
    assert keys == Map(KeyOf, ordered);
    return Ok(Snapshot(s.value, keys, Sealed(s.value, state.typeId, state.head, ordered)));
  }

  // ----- what the overlay is -----

  function FirstIndex(ids: seq<int>, x: int): (i: nat)
    requires x in ids
    ensures i < |ids| && ids[i] == x && x !in ids[..i]
  {
    if ids[0] == x then 0 else
      var i := FirstIndex(ids[1..], x);
      assert ids[..i + 1] == [ids[0]] + ids[1..][..i];
      i + 1
  }

  lemma FirstIndexUnique(ids: seq<int>, x: int, i: nat)
    requires i < |ids| && ids[i] == x && x !in ids[..i]
    ensures FirstIndex(ids, x) == i
  {
    var j := FirstIndex(ids, x);
    assert forall k :: 0 <= k < i ==> ids[k] in ids[..i];
    assert forall k :: 0 <= k < j ==> ids[k] in ids[..j];
  }

  lemma PoolSnoc(members: seq<Member>, m: Member)
    ensures Pool(members + [m]) == Pool(members)[m.id := m] && Map(IdOf, members + [m]) == Map(IdOf, members) + [m.id]
  {
    assert (members + [m])[..|members|] == members;
  }

  lemma OtherIds(members: seq<Member>, id: int)
    requires id !in Map(IdOf, members)
    ensures forall m :: m in members ==> m.id != id
  {
    var ids := Map(IdOf, members);
    forall m | m in members ensures m.id != id {
      var i :| 0 <= i < |members| && members[i] == m;
      assert ids[i] in ids;
    }
  }

  lemma {:induction false} PoolFacts(members: seq<Member>)
    requires Distinct(Map(IdOf, members))
    ensures forall id :: id in Pool(members) <==> id in Map(IdOf, members)
    ensures forall m :: m in members ==> m.id in Pool(members) && Pool(members)[m.id] == m
    ensures forall id :: id in Pool(members) ==> Pool(members)[id] in members && Pool(members)[id].id == id
  {
    if members != [] {
      var n := |members| - 1;
      var before, last := members[..n], members[n];
      assert members == before + [last];
      PoolSnoc(before, last);
      hide Pool, Map;
      var ids := Map(IdOf, before);
      assert Map(IdOf, members)[..n] == ids && Map(IdOf, members)[n] == last.id;
      PoolFacts(before);
      OtherIds(before, last.id);
    }
  }

  ghost predicate PoolKeyed(pool: map<int, Member>) { forall id :: id in pool ==> pool[id].id == id }

  /** Exactly the pooled ids that occur are picked. */
  lemma {:induction false} PickedMembers(ids: seq<int>, pool: map<int, Member>)
    requires PoolKeyed(pool)
    ensures forall m :: m in Picked(ids, pool) <==> m.id in ids && m.id in pool && pool[m.id] == m
  {
    if ids != [] {
      var n := |ids| - 1;
      PickedMembers(ids[..n], pool);
      var before := Picked(ids[..n], pool);
      assert ids == ids[..n] + [ids[n]];
      var x := ids[n];
      assert Picked(ids, pool) == if x in pool && x !in ids[..n] then before + [pool[x]] else before;
      assert x in pool ==> pool[x].id == x;
      forall m ensures m in Picked(ids, pool) <==> m.id in ids && m.id in pool && pool[m.id] == m {
        assert m in before <==> m.id in ids[..n] && m.id in pool && pool[m.id] == m;
        assert m.id in ids <==> m.id in ids[..n] || m.id == x;
      }
    }
  }

  /** They are picked in order of first occurrence. */
  lemma {:induction false} PickedSorted(ids: seq<int>, pool: map<int, Member>, i: nat, j: nat)
    requires PoolKeyed(pool) && i < j < |Picked(ids, pool)|
    ensures var r := Picked(ids, pool);
      r[i].id in ids && r[j].id in ids && FirstIndex(ids, r[i].id) < FirstIndex(ids, r[j].id)
  {
    PickedMembers(ids, pool);
    var r, n := Picked(ids, pool), |ids| - 1;
    assert r[i] in r && r[j] in r;
    var before := Picked(ids[..n], pool);
    PickedMembers(ids[..n], pool);
    if j < |before| {
      PickedSorted(ids[..n], pool, i, j);
      FirstIndexPrefix(ids, n, r[i].id);
      FirstIndexPrefix(ids, n, r[j].id);
    } else {
      assert r[i] in before;
      FirstIndexPrefix(ids, n, r[i].id);
      FirstIndexUnique(ids, r[j].id, n);
    }
  }

  lemma FirstIndexPrefix(ids: seq<int>, n: nat, x: int)
    requires n <= |ids| && x in ids[..n]
    ensures x in ids && FirstIndex(ids, x) == FirstIndex(ids[..n], x)
  {
    var i := FirstIndex(ids[..n], x);
    assert ids[..n][..i] == ids[..i];
    FirstIndexUnique(ids, x, i);
  }

  lemma PickedDistinct(ids: seq<int>, pool: map<int, Member>)
    requires PoolKeyed(pool)
    ensures Distinct(Picked(ids, pool))
  {
    var r := Picked(ids, pool);
    forall i, j | 0 <= i < j < |r| ensures r[i] != r[j] { PickedSorted(ids, pool, i, j); }
  }

  /** Where a member stands: by its first saved occurrence, and behind all saved ones by its place
      in the baseline. */
  function Rank(members: seq<Member>, saved: seq<int>, m: Member): nat
    requires m.id in Map(IdOf, members)
  {
    if m.id in saved then FirstIndex(saved, m.id) else |saved| + FirstIndex(Map(IdOf, members), m.id)
  }

  lemma RankIsFirstIndex(members: seq<Member>, saved: seq<int>, m: Member)
    requires m.id in Map(IdOf, members)
    ensures FirstIndex(saved + Map(IdOf, members), m.id) == Rank(members, saved, m)
  {
    var ids := Map(IdOf, members);
    var i := Rank(members, saved, m);
    if m.id in saved {
      assert (saved + ids)[..i] == saved[..i];
    } else {
      assert (saved + ids)[..i] == saved + ids[..i - |saved|];
    }
    FirstIndexUnique(saved + ids, m.id, i);
  }

  /** The overlay holds every member exactly once, saved ones first in order of first occurrence and
      the rest in baseline order; saved ids without a member are ignored. */
  lemma OverlayIsOrderedPermutation(members: seq<Member>, saved: seq<int>)
    requires Distinct(Map(IdOf, members))
    ensures multiset(Overlay(members, saved)) == multiset(members)
    ensures var r := Overlay(members, saved);
      forall i, j :: 0 <= i < j < |r| ==>
        r[i].id in Map(IdOf, members) && r[j].id in Map(IdOf, members) && Rank(members, saved, r[i]) < Rank(members, saved, r[j])
  {
    var ids, pool := saved + Map(IdOf, members), Pool(members);
    var r := Overlay(members, saved);
    PoolFacts(members);
    hide Rank, Pool, Picked;
    PickedMembers(ids, pool);
    PickedDistinct(ids, pool);
    MembersDistinct(members);
    forall m ensures m in r <==> m in members {
      if m in members { MemberIds(members, m); }
    }
    SameElements(r, members);
    forall i, j | 0 <= i < j < |r|
      ensures r[i].id in Map(IdOf, members) && r[j].id in Map(IdOf, members) && Rank(members, saved, r[i]) < Rank(members, saved, r[j])
    {
      assert r[i] in r && r[j] in r;
      PickedSorted(ids, pool, i, j);
      RankIsFirstIndex(members, saved, r[i]);
      RankIsFirstIndex(members, saved, r[j]);
    }
  }

  lemma MemberIds(members: seq<Member>, m: Member)
    requires m in members
    ensures m.id in Map(IdOf, members)
  {
    var i :| 0 <= i < |members| && members[i] == m;
    assert Map(IdOf, members)[i] == m.id;
  }

  lemma MembersDistinct(members: seq<Member>)
    requires Distinct(Map(IdOf, members))
    ensures Distinct(members)
  {
    var ids := Map(IdOf, members);
    assert forall i :: 0 <= i < |members| ==> ids[i] == members[i].id;
  }

  /** Saving a full permutation of the binding ids dictates the order, whatever the baseline order
      and whatever else is listed after it. */
  lemma SavedPermutationDictates(members: seq<Member>, saved: seq<int>)
    requires Distinct(Map(IdOf, members)) && multiset(saved) == multiset(Map(IdOf, members))
    ensures Map(IdOf, Overlay(members, saved)) == saved
  {
    var ids, pool := Map(IdOf, members), Pool(members);
    PoolFacts(members);
    forall x ensures x in saved <==> x in ids { RearrangedMember(saved, ids, x); }
    RearrangedDistinct(saved, ids);
    PickedDistinctIds(saved, pool);
    PickedSkips(saved, ids, pool);
  }

  lemma {:induction false} PickedDistinctIds(ids: seq<int>, pool: map<int, Member>)
    requires PoolKeyed(pool) && Distinct(ids) && forall x :: x in ids ==> x in pool
    ensures Map(IdOf, Picked(ids, pool)) == ids
  {
    if ids != [] {
      var n := |ids| - 1;
      assert forall x :: x in ids[..n] ==> x in ids;
      PickedDistinctIds(ids[..n], pool);
      var x := ids[n];
      assert x in ids && x !in ids[..n];
      assert Picked(ids, pool) == Picked(ids[..n], pool) + [pool[x]];
      assert Map(IdOf, Picked(ids, pool)) == Map(IdOf, Picked(ids[..n], pool)) + [ids[n]];
    }
  }

  lemma {:induction false} PickedSkips(ids: seq<int>, more: seq<int>, pool: map<int, Member>)
    requires forall x :: x in more ==> x in ids
    ensures Picked(ids + more, pool) == Picked(ids, pool)
  {
    if more == [] {
      assert ids + more == ids;
    } else {
      var n := |more| - 1;
      assert more[n] in more && forall x :: x in more[..n] ==> x in more;
      PickedSkips(ids, more[..n], pool);
      assert (ids + more)[..|ids| + n] == ids + more[..n];
      assert (ids + more)[|ids| + n] == more[n] && more[n] in ids + more[..n];
    }
  }

  // ----- the permutation check -----

  /** The requested order is, once canonicalized, a permutation of the current one. */
  predicate IsPermutation(s: Snapshot, keys: seq<Key>) {
    && Distinct(s.ordered)
    && (forall k :: k in keys ==> Belongs(CanonicalKey(k), s.scope))
    && multiset(Map(CanonicalKey, keys)) == multiset(s.ordered)
  }

  lemma PermutationDraws(s: Snapshot, keys: seq<Key>)
    requires IsPermutation(s, keys)
    ensures Distinct(Map(CanonicalKey, keys)) && |keys| == |s.ordered|
    ensures forall i :: 0 <= i < |keys| ==> Belongs(CanonicalKey(keys[i]), s.scope) && CanonicalKey(keys[i]) in s.ordered
  {
    hide CanonicalKey, Belongs;
    var all := Map(CanonicalKey, keys);
    RearrangedDistinct(all, s.ordered);
    RearrangedLength(all, s.ordered);
    forall i | 0 <= i < |keys| ensures Belongs(CanonicalKey(keys[i]), s.scope) && CanonicalKey(keys[i]) in s.ordered {
      assert keys[i] in keys && all[i] in all;
      RearrangedMember(all, s.ordered, all[i]);
    }
  }

  method ValidatePermutation(s: Snapshot, keys: seq<Key>) returns (r: Result<seq<Key>>)
    ensures r.Ok? <==> IsPermutation(s, keys)
    ensures r.Ok? ==> r.value == Map(CanonicalKey, keys)
    ensures r.Err? ==> r.error == Validation
  {
    hide CanonicalKey, Belongs;
    if IsPermutation(s, keys) { PermutationDraws(s, keys); }
    if |keys| != |s.ordered| { return Err(Validation); }
    var remaining := set k | k in s.ordered;
    var all: seq<Key> := [];
    for i := 0 to |keys|
      invariant all == Map(CanonicalKey, keys)[..i] && Distinct(all)
      invariant remaining == set k | k in s.ordered && k !in all
      invariant forall k :: k in all ==> k in s.ordered
      invariant forall j :: 0 <= j < i ==> Belongs(CanonicalKey(keys[j]), s.scope)
    {
      var key := CanonicalFor(keys[i], s.scope);
      if key.Err? { return Err(key.error); }
      if key.value !in remaining {
        if key.value in all {
          var j :| 0 <= j < i && all[j] == key.value;
          assert Map(CanonicalKey, keys)[j] == Map(CanonicalKey, keys)[i];
        }
        return Err(Validation);
      }
      remaining := remaining - {key.value};
      DistinctStep(all, key.value);
      all := all + [key.value];
    }
    DrawnAll(all, s.ordered);
    assert all == Map(CanonicalKey, keys);
    return Ok(all);
  }

  /** A resolved order has no repeated key, so the check on it is exactly "a permutation". */
  lemma ResolvedIsDistinct(scope: ResourceScope, state: OrderState)
    requires Resolvable(scope, state)
    ensures var s := Resolved(ExactScope(scope).value, state);
      && Distinct(s.ordered)
      && multiset(s.ordered) == multiset(Map(KeyOf, Map(CanonicalMember, state.members)))
  {
    hide CanonicalKey, CanonicalScope, Belongs, Overlay, Rank;
    var members := Map(CanonicalMember, state.members);
    assert Map(IdOf, members) == Map(IdOf, state.members);
    OverlayIsOrderedPermutation(members, state.saved);
    MapKeepsRearrangement(KeyOf, Overlay(members, state.saved), members);
    RearrangedDistinct(Map(KeyOf, Overlay(members, state.saved)), Map(KeyOf, members));
  }

  // ----- the token -----

  /** Two resolvable states have one token exactly when they are of one exact scope, type and head and
      list the same members - key, binding id and binding revision - in the same resolved order. */
  lemma TokensAgreeIff(scope: ResourceScope, a: OrderState, scope': ResourceScope, b: OrderState)
    requires Resolvable(scope, a) && Resolvable(scope', b)
    ensures Resolved(ExactScope(scope).value, a).revision == Resolved(ExactScope(scope').value, b).revision <==>
      && CanonicalScope(scope) == CanonicalScope(scope') && a.typeId == b.typeId && a.head == b.head
      && Overlay(Map(CanonicalMember, a.members), a.saved) == Overlay(Map(CanonicalMember, b.members), b.saved)
  {
    hide CanonicalScope, Overlay, Consistent, CanonicalMember;
  }

  /** So one token means the same members, whatever order they were read in. */
  lemma TokenFixesMembers(scope: ResourceScope, a: OrderState, scope': ResourceScope, b: OrderState)
    requires Resolvable(scope, a) && Resolvable(scope', b)
    requires Resolved(ExactScope(scope).value, a).revision == Resolved(ExactScope(scope').value, b).revision
    ensures multiset(Map(CanonicalMember, a.members)) == multiset(Map(CanonicalMember, b.members))
    ensures forall m, n :: m in a.members && n in b.members && m.id == n.id ==> m.revision == n.revision && CanonicalKey(m.key) == CanonicalKey(n.key)
  {
    hide CanonicalScope, CanonicalKey, Overlay, Belongs, Rank;
    TokensAgreeIff(scope, a, scope', b);
    var x, y := Map(CanonicalMember, a.members), Map(CanonicalMember, b.members);
    assert Map(IdOf, x) == Map(IdOf, a.members) && Map(IdOf, y) == Map(IdOf, b.members);
    OverlayIsOrderedPermutation(x, a.saved);
    OverlayIsOrderedPermutation(y, b.saved);
    forall m, n | m in a.members && n in b.members && m.id == n.id
      ensures m.revision == n.revision && CanonicalKey(m.key) == CanonicalKey(n.key)
    {
      CanonicalMemberIn(a.members, m);
      CanonicalMemberIn(b.members, n);
      RearrangedMember(x, y, CanonicalMember(m));
      SameIdSameMember(y, CanonicalMember(m), CanonicalMember(n));
    }
  }

  lemma CanonicalMemberIn(members: seq<Member>, m: Member)
    requires m in members
    ensures CanonicalMember(m) in Map(CanonicalMember, members)
  {
    hide CanonicalKey;
    var i :| 0 <= i < |members| && members[i] == m;
    assert Map(CanonicalMember, members)[i] == CanonicalMember(m);
  }

  lemma SameIdSameMember(members: seq<Member>, m: Member, n: Member)
    requires Distinct(Map(IdOf, members)) && m in members && n in members && m.id == n.id
    ensures m == n
  {
    var ids := Map(IdOf, members);
    var i :| 0 <= i < |members| && members[i] == m;
    var j :| 0 <= j < |members| && members[j] == n;
    assert ids[i] == ids[j];
  }

  /** Two members with the same level, source and characteristic, or the same binding. */
  predicate Clash(m: Member, n: Member) {
    || m.id == n.id
    || (Canonical(m.key.sourceLevel) == Canonical(n.key.sourceLevel) && Canonical(m.key.sourceCode) == Canonical(n.key.sourceCode) &&
        CanonicalAttribute(m.key.characteristic) == CanonicalAttribute(n.key.characteristic))
  }

  /** A member says which family or which type of the scope it comes from, what it is an occurrence of, and
      under which binding. */
  predicate Placed(m: Member, scope: ResourceScope) {
    && m.id > 0 && CanonicalAttribute(m.key.characteristic) != ""
    && (Canonical(m.key.sourceLevel) == "FAMILY" ==> Canonical(m.key.sourceCode) == Canonical(scope.familyCode))
    && (Canonical(m.key.sourceLevel) == "TYPE" ==> Canonical(m.key.sourceCode) == Canonical(scope.typeCode))
    && Canonical(m.key.sourceLevel) in {"FAMILY", "TYPE"}
  }

  lemma MapClash<T, U>(f: T -> U, s: seq<T>)
    ensures Distinct(Map(f, s)) <==> forall i, j :: 0 <= i < j < |s| ==> f(s[i]) != f(s[j])
  {
    var t := Map(f, s);
    if Distinct(t) {
      forall i, j | 0 <= i < j < |s| ensures f(s[i]) != f(s[j]) { assert t[i] != t[j]; }
    }
  }

  /** A state is resolvable exactly when its scope names class, family and type, its type exists, every
      member is placed in the scope, and no two members clash. */
  lemma ResolvableMeans(scope: ResourceScope, state: OrderState)
    ensures Resolvable(scope, state) <==>
      && Canonical(scope.classCode) != "" && Canonical(scope.familyCode) != "" && Canonical(scope.typeCode) != "" && state.typeId > 0
      && (forall m :: m in state.members ==> Placed(m, scope))
      && (forall i, j :: 0 <= i < j < |state.members| ==> !Clash(state.members[i], state.members[j]))
  {
    hide Canonical, CanonicalAttribute, Placed, Clash;
    if ExactScope(scope).Ok? {
      var s := ExactScope(scope).value;
      forall m ensures Placed(m, scope) <==> Belongs(CanonicalKey(m.key), s) && m.id > 0 { PlacedBelongs(m, scope); }
      hide Belongs;
      NoClash(state.members);
    }
    hide Distinct, KeysOf, Belongs;
  }

  lemma PlacedBelongs(m: Member, scope: ResourceScope)
    ensures Placed(m, scope) <==> Belongs(CanonicalKey(m.key), CanonicalScope(scope)) && m.id > 0
  {
    hide Canonical, CanonicalAttribute;
  }

  lemma NoClash(members: seq<Member>)
    ensures Distinct(KeysOf(members)) && Distinct(Map(IdOf, members)) <==> forall i, j :: 0 <= i < j < |members| ==> !Clash(members[i], members[j])
  {
    hide Canonical, CanonicalAttribute, Distinct;
    MapClash(IdOf, members);
    MapClash(KeyOf, Map(CanonicalMember, members));
  }
}

/** A type with one attribute: a reorder of it that runs to its commit, and the same write put under
    another row. */
module OrderExample {
  import opened Sorting
  import opened Catalog
  import opened AttributeOrder
  import opened OrderStore
  import opened OrderProtocol
  import opened OrderSafety
  import Evaluator
  import Text
  import CatalogRepository

  /** A canonical key of the scope's family. */
  predicate Fits(here: ResourceScope, k: Key) {
    ExactScope(here) == Ok(here) && CanonicalKey(k) == k && Belongs(k, here)
  }

  /** Binding 7 of type 9. */
  function Only(k: Key): Member { Member(k, 7, 1) }

  function Alone(k: Key, head: nat, saved: seq<int>): OrderState { OrderState(9, head, [Only(k)], saved) }

  function Request(here: ResourceScope, k: Key): WriteRequest { WriteRequest(here, [k], Sealed(here, 9, 0, [Only(k)])) }

  lemma OneMember(k: Key)
    ensures ByKey([Only(k)]) == map[k := Only(k)]
    ensures Pool([Only(k)]) == map[7 := Only(k)]
  {
    var members := [Only(k)];
    assert members[..0] == [];
    assert ByKey([]) == map[] && Pool([]) == map[];
  }

  lemma OneIsConsistent(here: ResourceScope, k: Key)
    requires Fits(here, k)
    ensures Consistent(here, [Only(k)]) && BaselineFits([k], [Only(k)]) && Baseline([k], [Only(k)]) == [Only(k)]
    ensures Map(CanonicalMember, [Only(k)]) == [Only(k)]
  {
    hide ExactScope, CanonicalKey, Belongs, ByKey;
    OneMember(k);
    assert Map(CanonicalMember, [Only(k)]) == [Only(k)];
    assert Map(KeyOf, [Only(k)]) == [k] && Map(IdOf, [Only(k)]) == [7];
    assert Map(Lookup([Only(k)]), [k]) == [Only(k)];
  }

  lemma OneIsReadable(here: ResourceScope, k: Key, head: nat, saved: seq<int>)
    requires Fits(here, k) && (saved == [] || saved == [7])
    ensures Readable(here, [k], Alone(k, head, saved))
    ensures Reading(here, [k], Alone(k, head, saved)) == Snapshot(here, [k], Sealed(here, 9, head, [Only(k)]))
  {
    var state := Alone(k, head, saved);
    OneIsConsistent(here, k);
    OneOverlaid(k, saved);
    hide ExactScope, CanonicalKey, Belongs, Baseline, BaselineFits, Consistent, Overlay;
    assert OnBaseline([k], state) == state;
    assert Map(KeyOf, [Only(k)]) == [k];
  }

  lemma OneOverlaid(k: Key, saved: seq<int>)
    requires saved == [] || saved == [7]
    ensures Overlay([Only(k)], saved) == [Only(k)]
  {
    OneMember(k);
    var pool, ids := Pool([Only(k)]), Map(IdOf, [Only(k)]);
    assert ids == [7];
    assert [7][..0] == [] && Picked([], pool) == [] && Picked([7], pool) == [Only(k)];
    if saved == [7] {
      assert [7, 7][..1] == [7] && [7] + [7] == [7, 7];
      assert Picked([7, 7], pool) == [Only(k)];
    } else {
      assert saved + ids == [7];
    }
  }

  lemma OneIsPermutation(here: ResourceScope, k: Key, revision: OrderRevision)
    requires Fits(here, k)
    ensures IsPermutation(Snapshot(here, [k], revision), [k])
  {
    hide CanonicalKey, Belongs, ExactScope;
    assert Map(CanonicalKey, [k]) == [k];
  }

  lemma RequestIsAcceptable(here: ResourceScope, k: Key)
    requires Fits(here, k)
    ensures Acceptable(here, [k], Alone(k, 0, []), Request(here, k))
  {
    OneIsReadable(here, k, 0, []);
    OneIsPermutation(here, k, Sealed(here, 9, 0, [Only(k)]));
    hide Readable, Reading, ExactScope, CanonicalKey, Belongs, IsPermutation;
  }

  lemma AcceptedPlan(here: ResourceScope, k: Key)
    requires Fits(here, k)
    ensures AcceptedIds([k], Alone(k, 0, []), Request(here, k)) == [7]
  {
    OneMember(k);
    hide ExactScope, CanonicalKey, Belongs, ByKey;
    var members := [Only(k)];
    assert Map(CanonicalKey, [k]) == [k];
    assert Baseline([k], members) == members;
    assert Map(CanonicalMember, members) == members;
    assert Map(Lookup(members), [k]) == members;
    assert Map(IdOf, members) == [7];
  }

  // ----- where the scope resolves to type 9 -----

  /** The scope resolves to type 9, whose order has never been written. */
  predicate Here(t: Tables, here: ResourceScope, k: Key) {
    && TypeNow(t, Request(here, k)) == Some(9) && StateOf(t, 9) == Alone(k, 0, []) && EffectiveOf(t, 9) == [k]
  }

  /** A non-empty order stored under a row its scope does not resolve to stays acceptable. */
  lemma MovedWriteReplays(t: Tables, here: ResourceScope, k: Key, row: int)
    requires Fits(here, k) && Here(t, here, k) && row != 9
    ensures Request(here, k).ordered != [] && StillAcceptable(Replaced(t, row, [7]), Request(here, k))
  {
    RequestIsAcceptable(here, k);
    AcceptedPlan(here, k);
    hide Acceptable, AcceptedIds, StateOf, EffectiveOf, TypeNow, Fits, Replaced;
    ReplayableExactlyWhenMoved(t, row, Request(here, k));
  }

  lemma AcceptedWrite(s: State, tx: nat, id: int)
    requires PhaseOf(s, tx).ShareLocked? && TypeNow(s.tables, s.reorders[tx].req) == Some(id)
    requires Acceptable(s.reorders[tx].req.scope, EffectiveOf(s.tables, id), StateOf(s.tables, id), s.reorders[tx].req)
    ensures Exec(s, Write(tx)) == Enter(s, tx, Written(PhaseOf(s, tx).row, StateOf(s.tables, id), EffectiveOf(s.tables, id)))
  {
    hide Acceptable, TypeNow, StateOf, EffectiveOf, Finish;
  }

  lemma ComparedWrite(s: State, tx: nat)
    requires PhaseOf(s, tx).Written? && ReadsBack(s.tables, s.reorders[tx])
    ensures var p := PhaseOf(s, tx); Exec(s, Verify(tx)) == Enter(s, tx, Verified(p.row, p.state, p.effective))
  {
    hide ReadsBack, Finish;
  }

  lemma CommittedWrite(s: State, tx: nat)
    requires PhaseOf(s, tx).Verified?
    ensures var s', r := Exec(s, Commit(tx, true)), s.reorders[tx];
      s'.log == s.log + [EntryFor(s.tables, r)] && s'.tables == Replaced(s.tables, r.phase.row, PlannedIds(r))
  {
    hide EntryFor, PlannedIds, Replaced;
  }

  lemma WriteIsAccepted(s: State, here: ResourceScope, k: Key)
    requires Fits(here, k) && Here(s.tables, here, k) && 0 in s.reorders && s.reorders[0] == Reorder(Request(here, k), ShareLocked(9))
    ensures Exec(s, Write(0)) == Enter(s, 0, Written(9, Alone(k, 0, []), [k]))
  {
    RequestIsAcceptable(here, k);
    hide Acceptable, TypeNow, StateOf, EffectiveOf, Exec, Fits, Enter;
    AcceptedWrite(s, 0, 9);
  }

  lemma StillCurrent(t: Tables, here: ResourceScope, k: Key)
    requires Here(t, here, k) && 9 in t.views
    ensures Current(t, Request(here, k), Alone(k, 0, []), [k])
  {
    hide TypeNow;
  }

  lemma OwnWriteIsRead(s: State, here: ResourceScope, k: Key)
    requires Fits(here, k) && Here(s.tables, here, k) && 9 in s.tables.views
    requires 0 in s.reorders && s.reorders[0] == Reorder(Request(here, k), Written(9, Alone(k, 0, []), [k]))
    ensures Exec(s, Verify(0)) == Enter(s, 0, Verified(9, Alone(k, 0, []), [k]))
  {
    RequestIsAcceptable(here, k);
    StillCurrent(s.tables, here, k);
    hide Acceptable, Current, Here, Exec, Fits, Enter, ReadsBack;
    CurrentReadsBack(s.tables, s.reorders[0]);
    ComparedWrite(s, 0);
  }

  lemma EntryOfOne(t: Tables, here: ResourceScope, k: Key)
    requires Fits(here, k) && Here(t, here, k)
    ensures var r := Reorder(Request(here, k), Verified(9, Alone(k, 0, []), [k]));
      EntryFor(t, r) == Applied(Request(here, k), 9, [7], [7]) && PlannedIds(r) == [7]
  {
    AcceptedPlan(here, k);
    hide AcceptedIds, TypeNow, StateOf, EffectiveOf, Fits;
    assert Map(IdOf, [Only(k)]) == [7];
  }

  /** The reorder takes effect: its one binding is stored, and its entry is in the log. */
  lemma ReorderTakesEffect(s: State, here: ResourceScope, k: Key)
    requires Fits(here, k) && Here(s.tables, here, k)
    requires 0 in s.reorders && s.reorders[0] == Reorder(Request(here, k), Verified(9, Alone(k, 0, []), [k]))
    ensures var s' := Exec(s, Commit(0, true));
      s'.log == s.log + [Applied(Request(here, k), 9, [7], [7])] && s'.tables == Replaced(s.tables, 9, [7])
  {
    EntryOfOne(s.tables, here, k);
    hide EntryFor, PlannedIds, Replaced, Exec, Fits, Here;
    CommittedWrite(s, 0);
  }

  /** From its SHARE locks to its commit. */
  lemma ReorderRunsThrough(s: State, here: ResourceScope, k: Key)
    requires Fits(here, k) && Here(s.tables, here, k) && 9 in s.tables.views
    requires 0 in s.reorders && s.reorders[0] == Reorder(Request(here, k), ShareLocked(9))
    ensures Exec(Exec(Exec(s, Write(0)), Verify(0)), Commit(0, true)).log == s.log + [Applied(Request(here, k), 9, [7], [7])]
  {
    WriteIsAccepted(s, here, k);
    var s1 := Enter(s, 0, Written(9, Alone(k, 0, []), [k]));
    var s2 := Enter(s1, 0, Verified(9, Alone(k, 0, []), [k]));
    hide Exec, Fits, Here;
    OwnWriteIsRead(s1, here, k);
    ReorderTakesEffect(s2, here, k);
  }

  /** Such tables, scope and key exist. */
  lemma PlainCodesFit()
    ensures Fits(ResourceScope("C", "F", "T"), Key("FAMILY", "F", "a"))
  {
    Text.CapitalLetter('C');
    Text.CapitalLetter('F');
    Text.CapitalLetter('T');
    LevelIsCanonical();
    Text.SmallLetter('a');
    hide Text.Canonical, Text.CanonicalAttribute;
  }

  lemma LevelIsCanonical()
    ensures Text.Canonical("FAMILY") == "FAMILY"
  {
    hide Text.Canonical;
    Text.CapitalsAreFixed("FAMILY");
  }

  lemma TablesExist(here: ResourceScope, k: Key)
    requires Fits(here, k)
    ensures var t := Tables(map[here := 9], map[9 := View([Only(k)], [k])], map[], map[], {9}); Here(t, here, k) && TablesOk(t)
  {
    hide ExactScope, CanonicalKey, Belongs;
  }
}

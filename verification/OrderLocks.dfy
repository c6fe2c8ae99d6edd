/** What each participant of the order protocol holds, and which steps move what. */
module OrderLocks {
  import opened Text
  import opened Catalog
  import opened AttributeOrder
  import opened OrderStore
  import opened OrderProtocol

  // ----- locks -----

  /** The reorder holds exactly this type row, and a SHARE lock as stated. */
  ghost predicate Holds(s: State, tx: nat, row: Option<int>, shared: bool) {
    && (tx in s.share <==> shared)
    && forall id :: (id in s.owner && s.owner[id] == ByReorder(tx)) <==> row == Some(id)
  }

  ghost predicate LocksFit(s: State, tx: nat) {
    match PhaseOf(s, tx)
    case Asked => Holds(s, tx, None, false)
    case RowLocked(row) => Holds(s, tx, Some(row), false)
    case ShareLocked(row) => Holds(s, tx, Some(row), true)
    case Written(row, _, _) => Holds(s, tx, Some(row), true)
    case Verified(row, _, _) => Holds(s, tx, Some(row), true)
    case Over => Holds(s, tx, None, false)
  }

  /** The steps of the reorders. */
  predicate OfReorder(step: Step) {
    step.Ask? || step.LockRow? || step.LockShare? || step.Write? || step.Verify? || step.Commit? || step.Abort?
  }

  lemma ReorderFitsLocks(s: State, step: Step, tx: nat)
    requires LocksFit(s, tx) && OfReorder(step)
    ensures LocksFit(Exec(s, step), tx)
  {
    hide TypeNow, ReadsBack, Replaced, PlannedIds, Acceptable, StateOf, EffectiveOf, EntryFor;
  }

  lemma WriterFitsLocks(s: State, step: Step, tx: nat)
    requires LocksFit(s, tx) && !OfReorder(step)
    ensures LocksFit(Exec(s, step), tx)
  {
    hide StructuralAllowed, Shows, TypeChanged, Inserted, RecodedTypes;
  }

  /** Over any run a reorder holds exactly the locks of its phase: none before it starts and none once it is
      over, its one type row from the first lock on, a SHARE lock from the second. */
  lemma {:induction false} LocksFollowPhases(s: State, steps: seq<Step>, tx: nat)
    requires Init(s) && forall id :: id in s.owner ==> s.owner[id].ByTypeWriter?
    ensures LocksFit(Run(s, steps), tx)
  {
    hide Exec, LocksFit;
    if steps == [] {
      assert LocksFit(s, tx) by { NoneHeld(s, tx); }
    } else {
      var n := |steps| - 1;
      LocksFollowPhases(s, steps[..n], tx);
      if OfReorder(steps[n]) { ReorderFitsLocks(Run(s, steps[..n]), steps[n], tx); } else { WriterFitsLocks(Run(s, steps[..n]), steps[n], tx); }
    }
  }

  lemma NoneHeld(s: State, tx: nat)
    requires Init(s) && forall id :: id in s.owner ==> s.owner[id].ByTypeWriter?
    ensures LocksFit(s, tx)
  {}

  // ----- effects -----

  /** A commit that takes effect stores the planned ids under the locked row and raises its head by one; it
      moves no type, binding or layout, no other row's order, and logs itself. */
  lemma CommitStores(s: State, tx: nat)
    requires PhaseOf(s, tx).Verified?
    ensures var r, s' := s.reorders[tx], Exec(s, Commit(tx, true));
      var row, t, t' := r.phase.row, s.tables, s'.tables;
      && t'.types == t.types && t'.views == t.views && t'.issued == t.issued && s'.db == s.db && s'.writers == s.writers
      && t'.saved == t.saved[row := AcceptedIds(r.phase.effective, r.phase.state, r.req)]
      && t'.heads == t.heads[row := HeadOf(t.heads, row) + 1]
      && |s'.log| == |s.log| + 1 && s'.log[..|s.log|] == s.log
      && s'.log[|s.log|].req == r.req && s'.log[|s.log|].row == row && s'.log[|s.log|].ids == t'.saved[row]
      && PhaseOf(s', tx).Over? && forall other :: other != tx ==> PhaseOf(s', other) == PhaseOf(s, other)
  {
    hide TypeNow, StateOf, AcceptedIds;
  }

  /** The steps that end no transaction with an effect. */
  predicate Silent(step: Step) {
    step.Ask? || step.LockRow? || step.LockShare? || step.Write? || step.Verify? || step.Abort? || (step.Commit? && !step.applied) ||
    step.StructuralBegin? || step.TypeLock?
  }

  /** Only commits move tables, catalog or log; locks, reads, comparisons, aborts and failed commits do
      not. */
  lemma SilentStepsStore(s: State, step: Step)
    requires Silent(step)
    ensures Exec(s, step).tables == s.tables && Exec(s, step).db == s.db && Exec(s, step).log == s.log
  {
    hide TypeNow, ReadsBack, Acceptable, StateOf, EffectiveOf;
  }

  /** Whose reorder it is: a step moves no phase but that of the reorder it names. */
  lemma OthersUnmoved(s: State, step: Step, other: nat)
    requires OfReorder(step) ==> step.tx != other
    ensures PhaseOf(Exec(s, step), other) == PhaseOf(s, other)
  {
    hide TypeNow, ReadsBack, Acceptable, StateOf, EffectiveOf, StructuralAllowed, Shows, TypeChanged, Inserted, RecodedTypes;
  }
}

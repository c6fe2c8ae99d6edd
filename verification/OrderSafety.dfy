/** What every interleaving of reorders, structural writes, type writes and layout writes keeps. */
module OrderSafety {
  import opened Sorting
  import opened Catalog
  import opened AttributeOrder
  import opened OrderStore
  import opened OrderProtocol
  import CatalogRepository
  import RepositoryLaws
  import CoherentWrite

  // ----- structural writes move no type -----

  lemma RecodeFixes(types: map<ResourceScope, int>, r: Recode, c: ResourceScope)
    requires KeepsApart(types, r) && c in types && c in RecodedTypes(types, r)
    ensures Recoded(c, r) == c
  {
    var a :| a in types && Recoded(a, r) == c;
    hide KeepsApart;
  }

  lemma FixedStay(types: map<ResourceScope, int>, r: Recode)
    requires KeepsApart(types, r) && forall c :: c in types ==> Recoded(c, r) == c
    ensures RecodedTypes(types, r) == types
  {
    hide Recoded;
    var moved := RecodedTypes(types, r);
    forall c ensures c in moved <==> c in types {
      if c in types { assert Recoded(c, r) in moved; }
    }
    forall c | c in types ensures moved[c] == types[c] { assert moved[Recoded(c, r)] == types[c]; }
  }

  /** A change of codes that leaves the same scopes to be found is none: it cannot move a family or class
      that has types. */
  lemma SameScopesSameTypes(types: map<ResourceScope, int>, r: Recode)
    requires KeepsApart(types, r) && RecodedTypes(types, r).Keys == types.Keys
    ensures RecodedTypes(types, r) == types
  {
    hide Recoded, RecodedTypes, KeepsApart;
    forall c | c in types ensures Recoded(c, r) == c {
      assert c in RecodedTypes(types, r).Keys;
      RecodeFixes(types, r, c);
    }
    FixedStay(types, r);
  }

  /** So every structural writer leaves every scope resolving to the type it did. */
  lemma StructuralEndKeepsTypes(s: State, step: Step, perform: Performer)
    requires KeepsTypeScopes(perform) && Shows(s.db, s.tables) && Genuine(s, step, perform) && step.StructuralEnd? && StructuralAllowed(s, step)
    ensures RecodedTypes(s.tables.types, step.recode) == s.tables.types
  {
    hide RecodedTypes;
    SameScopesSameTypes(s.tables.types, step.recode);
  }

  // ----- what each kind of change leaves alone -----

  /** Type rows are never revived and heads never fall. */
  predicate Onward(t: Tables, t': Tables) {
    && t.issued <= t'.issued
    && forall id :: id in t.issued && id in t'.views ==> id in t.views && HeadOf(t.heads, id) <= HeadOf(t'.heads, id)
  }

  lemma LogKept(t: Tables, t': Tables, log: seq<Applied>)
    requires LogOk(t, log) && Onward(t, t')
    ensures LogOk(t', log)
  {
    forall i | 0 <= i < |log| ensures EntryOk(t', log[i]) {
      assert EntryOk(t, log[i]);
    }
  }

  /** Steps that leave the tables alone: a reorder that keeps its locks keeps its standing. */
  lemma LocksKept(s: State, s': State, tx: nat, r: Reorder)
    requires ReorderOk(s, tx, r) && s'.tables == s.tables
    requires forall row :: Owns(s, tx, row) ==> Owns(s', tx, row)
    requires tx in s.share ==> tx in s'.share
    ensures ReorderOk(s', tx, r)
  {
    hide Acceptable, Current, Owns, Finds;
  }

  lemma FinishKeepsOthers(s: State, tx: nat, other: nat, r: Reorder)
    requires tx in s.reorders && other != tx && ReorderOk(s, other, r)
    ensures ReorderOk(Finish(s, tx), other, r)
  {
    LocksKept(s, Finish(s, tx), other, r);
  }

  lemma FinishKeepsInv(s: State, tx: nat)
    requires Inv(s) && tx in s.reorders
    ensures Inv(Finish(s, tx))
  {
    hide Acceptable, Current, LogOk, TablesOk, Finds, Shows;
    var s' := Finish(s, tx);
    forall other | other in s'.reorders ensures ReorderOk(s', other, s'.reorders[other]) {
      if other != tx { FinishKeepsOthers(s, tx, other, s.reorders[other]); }
    }
  }

  /** Entering a phase that holds in the new state, with locks only added. */
  lemma EnterKeepsInv(s: State, s': State, tx: nat)
    requires Inv(s) && tx in s.reorders && tx in s'.reorders
    requires s'.tables == s.tables && s'.db == s.db && s'.log == s.log && s'.writers == s.writers && s'.reorders == s.reorders[tx := s'.reorders[tx]]
    requires s.share <= s'.share && (s'.share != {} ==> s'.writers == {})
    requires forall id :: id in s.owner ==> id in s'.owner && s'.owner[id] == s.owner[id]
    requires ReorderOk(s', tx, s'.reorders[tx])
    ensures Inv(s')
  {
    hide Acceptable, Current, LogOk, TablesOk, Finds, Shows;
    forall other | other in s'.reorders ensures ReorderOk(s', other, s'.reorders[other]) {
      if other != tx { LocksKept(s, s', other, s.reorders[other]); }
    }
  }

  // ----- changes to the tables -----

  /** The standing of a reorder survives a change elsewhere. */
  lemma TablesMoved(s: State, s': State, tx: nat, r: Reorder)
    requires ReorderOk(s, tx, r)
    requires forall row :: Owns(s, tx, row) ==> Owns(s', tx, row)
    requires tx in s.share ==> tx in s'.share
    requires forall row :: Owns(s, tx, row) && Finds(s.tables, r.req, row) ==> Finds(s'.tables, r.req, row)
    requires forall state: OrderState, effective: seq<Key> ::
      Owns(s, tx, state.typeId) && tx in s.share && Current(s.tables, r.req, state, effective) ==> Current(s'.tables, r.req, state, effective)
    ensures ReorderOk(s', tx, r)
  {
    hide Acceptable, Current, Owns, Finds;
  }

  lemma CurrentElsewhere(t: Tables, row: int, ids: seq<int>, req: WriteRequest, state: OrderState, effective: seq<Key>)
    requires Current(t, req, state, effective) && row != state.typeId
    ensures Current(Replaced(t, row, ids), req, state, effective)
  {
    hide ExactScope;
  }

  lemma CommitKeepsOthers(s: State, tx: nat, other: nat, r: Reorder)
    requires PhaseOf(s, tx).Verified? && ReorderOk(s, tx, s.reorders[tx]) && other != tx && ReorderOk(s, other, r)
    ensures ReorderOk(CommitStep(s, tx, true), other, r)
  {
    hide Acceptable, AcceptedIds, Current, EntryFor, ExactScope;
    var s', row, ids := CommitStep(s, tx, true), PhaseOf(s, tx).row, PlannedIds(s.reorders[tx]);
    forall state: OrderState, effective: seq<Key> | Owns(s, other, state.typeId) && Current(s.tables, r.req, state, effective)
      ensures Current(s'.tables, r.req, state, effective)
    {
      CurrentElsewhere(s.tables, row, ids, r.req, state, effective);
    }
    TablesMoved(s, s', other, r);
  }

  /** A commit stores the scope's bindings exactly and retires its token. */
  lemma EntryIsOk(s: State, tx: nat, r: Reorder)
    requires TablesOk(s.tables) && ReorderOk(s, tx, r) && r.phase.Verified?
    ensures EntryOk(Replaced(s.tables, r.phase.row, PlannedIds(r)), EntryFor(s.tables, r))
  {
    var p := r.phase;
    AcceptedIdsArePermutation(r.req.scope, p.effective, p.state, r.req);
    TokenOf(r.req, p.effective, p.state);
    hide Acceptable, AcceptedIds, Baseline;
  }

  /** Its token is not that of any commit before it. */
  lemma TokenIsFresh(s: State, tx: nat, r: Reorder, e: Applied)
    requires ReorderOk(s, tx, r) && r.phase.Verified? && EntryOk(s.tables, e)
    ensures e.req.expected != r.req.expected
  {
    TokenOf(r.req, r.phase.effective, r.phase.state);
    hide Acceptable, AcceptedIds, Distinct, Map, TypeNow;
  }

  lemma LogGrows(t: Tables, log: seq<Applied>, e: Applied)
    requires LogOk(t, log) && EntryOk(t, e)
    requires forall i :: 0 <= i < |log| ==> log[i].req.expected != e.req.expected
    ensures LogOk(t, log + [e])
  {
    hide EntryOk;
  }

  lemma CommitIsOnward(t: Tables, row: int, ids: seq<int>)
    ensures Onward(t, Replaced(t, row, ids))
  {}

  lemma CommitKeepsLog(s: State, tx: nat, r: Reorder)
    requires TablesOk(s.tables) && LogOk(s.tables, s.log) && ReorderOk(s, tx, r) && r.phase.Verified?
    ensures LogOk(Replaced(s.tables, r.phase.row, PlannedIds(r)), s.log + [EntryFor(s.tables, r)])
  {
    var t', e := Replaced(s.tables, r.phase.row, PlannedIds(r)), EntryFor(s.tables, r);
    assert e.req == r.req;
    EntryIsOk(s, tx, r);
    CommitIsOnward(s.tables, r.phase.row, PlannedIds(r));
    hide ReorderOk, PlannedIds, EntryFor, Replaced, EntryOk, Onward;
    LogKept(s.tables, t', s.log);
    forall i | 0 <= i < |s.log| ensures s.log[i].req.expected != e.req.expected {
      TokenIsFresh(s, tx, r, s.log[i]);
    }
    LogGrows(t', s.log, e);
  }

  /** An accepted token is sealed over the type and head that were read. */
  lemma TokenOf(req: WriteRequest, effective: seq<Key>, state: OrderState)
    requires Acceptable(req.scope, effective, state, req)
    ensures req.expected.Sealed? && req.expected.typeId == state.typeId && req.expected.head == state.head
  {}

  lemma CommitKeepsInv(s: State, tx: nat)
    requires Inv(s) && PhaseOf(s, tx).Verified?
    ensures Inv(CommitStep(s, tx, true))
  {
    hide Acceptable, Current, LogOk, AcceptedIds, Finds;
    var s' := CommitStep(s, tx, true);
    assert ReorderOk(s, tx, s.reorders[tx]);
    CommitKeepsLog(s, tx, s.reorders[tx]);
    forall other | other in s'.reorders ensures ReorderOk(s', other, s'.reorders[other]) {
      if other != tx { CommitKeepsOthers(s, tx, other, s.reorders[other]); }
    }
  }

  lemma WriteKeepsInv(s: State, tx: nat)
    requires Inv(s) && PhaseOf(s, tx).ShareLocked?
    ensures Inv(WriteStep(s, tx))
  {
    hide Acceptable, LogOk, ExactScope, Shows;
    var s', r := WriteStep(s, tx), s.reorders[tx];
    assert ReorderOk(s, tx, r);
    FinishKeepsInv(s, tx);
    if s'.reorders[tx].phase.Written? {
      EnterKeepsInv(s, s', tx);
    }
  }

  lemma VerifyKeepsInv(s: State, tx: nat)
    requires Inv(s) && PhaseOf(s, tx).Written?
    ensures Inv(Exec(s, Verify(tx)))
  {
    hide Acceptable, LogOk, ReadsBack, Current, Shows, Finds;
    var s', r := Exec(s, Verify(tx)), s.reorders[tx];
    assert ReorderOk(s, tx, r);
    FinishKeepsInv(s, tx);
    if ReadsBack(s.tables, r) { EnterKeepsInv(s, s', tx); }
  }

  lemma AskKeepsInv(s: State, tx: nat, req: WriteRequest)
    requires Inv(s)
    ensures Inv(Exec(s, Ask(tx, req)))
  {
    hide Acceptable, LogOk, Current, Finds, Shows;
    var s' := Exec(s, Ask(tx, req));
    if tx !in s.reorders {
      forall other | other in s'.reorders ensures ReorderOk(s', other, s'.reorders[other]) {
        if other != tx { LocksKept(s, s', other, s.reorders[other]); }
      }
    }
  }

  lemma LockRowKeepsInv(s: State, tx: nat)
    requires Inv(s) && PhaseOf(s, tx).Asked?
    ensures Inv(Exec(s, LockRow(tx)))
  {
    FinishKeepsInv(s, tx);
    var s', found := Exec(s, LockRow(tx)), TypeNow(s.tables, s.reorders[tx].req);
    if found.Some? && found.value !in s.owner {
      TypeExists(s.tables, s.reorders[tx].req);
      hide LogOk, TypeNow, Finish, TablesOk, ReordersOk, Shows;
      EnterKeepsInv(s, s', tx);
    }
  }

  lemma LockShareKeepsInv(s: State, tx: nat)
    requires Inv(s) && PhaseOf(s, tx).RowLocked? && s.writers == {}
    ensures Inv(Exec(s, LockShare(tx)))
  {
    assert ReorderOk(s, tx, s.reorders[tx]);
    hide LogOk, TablesOk, ReordersOk, Shows, Finds;
    EnterKeepsInv(s, Exec(s, LockShare(tx)), tx);
  }

  lemma TypeExists(t: Tables, req: WriteRequest)
    requires TablesOk(t) && TypeNow(t, req).Some?
    ensures TypeNow(t, req).value in t.views
  {
    assert TypeNow(t, req).value in t.types.Values;
  }

  lemma StructuralBeginKeepsInv(s: State, w: nat)
    requires Inv(s)
    ensures Inv(Exec(s, StructuralBegin(w)))
  {
    hide Acceptable, LogOk, Current, Finds, Shows, TablesOk;
    var s' := Exec(s, StructuralBegin(w));
    forall tx | tx in s'.reorders ensures ReorderOk(s', tx, s'.reorders[tx]) {
      LocksKept(s, s', tx, s.reorders[tx]);
    }
  }

  /** No reorder is past its SHARE locks when a structural write ends, and the types stay put. */
  lemma StructuralEndKeepsReorder(s: State, s': State, tx: nat, r: Reorder)
    requires ReorderOk(s, tx, r) && s.share == {}
    requires s'.tables.types == s.tables.types && s'.tables.views.Keys == s.tables.views.Keys && s'.owner == s.owner
    ensures ReorderOk(s', tx, r)
  {
    hide Acceptable, Current, ExactScope;
  }

  lemma StructuralEndShape(s: State, step: Step, perform: Performer)
    requires KeepsTypeScopes(perform) && Inv(s) && Genuine(s, step, perform) && step.StructuralEnd? && StructuralAllowed(s, step)
    ensures s.share == {} && step.views.Keys == s.tables.views.Keys
    ensures Exec(s, step) ==
      s.(tables := s.tables.(views := step.views, saved := step.saved), db := step.after, writers := s.writers - {step.writer})
    ensures Shows(step.after, s.tables)
  {
    StructuralEndKeepsTypes(s, step, perform);
    hide RecodedTypes, KeepsApart, KeepsTypeScopes, ReordersOk, LogOk, TablesOk;
  }

  lemma StructuralTables(t: Tables, views: map<int, View>, saved: map<int, seq<int>>)
    requires TablesOk(t) && views.Keys == t.views.Keys
    ensures TablesOk(t.(views := views, saved := saved)) && Onward(t, t.(views := views, saved := saved))
  {}

  lemma StructuralEndKeepsInv(s: State, step: Step, perform: Performer)
    requires KeepsTypeScopes(perform) && Inv(s) && Genuine(s, step, perform) && step.StructuralEnd? && StructuralAllowed(s, step)
    ensures Inv(Exec(s, step))
  {
    StructuralEndShape(s, step, perform);
    StructuralTables(s.tables, step.views, step.saved);
    hide Exec, LogOk, TablesOk, Onward, ReorderOk, Genuine, KeepsTypeScopes, StructuralAllowed;
    var s' := Exec(s, step);
    LogKept(s.tables, s'.tables, s.log);
    forall tx | tx in s'.reorders ensures ReorderOk(s', tx, s'.reorders[tx]) {
      StructuralEndKeepsReorder(s, s', tx, s.reorders[tx]);
    }
  }

  /** A type row held by a reorder keeps its codes and bindings. */
  lemma TypeKeepsHeld(s: State, step: Step, req: WriteRequest, row: int)
    requires TablesOk(s.tables) && (step.TypeLock? || step.TypeEnd? || step.TypeInsert?)
    requires row in s.owner && s.owner[row].ByReorder? && Finds(s.tables, req, row)
    ensures Finds(Exec(s, step).tables, req, row)
  {
    hide ExactScope, Shows;
  }

  lemma ChangedElsewhere(t: Tables, id: int, change: TypeChange, row: int)
    requires row != id && row in t.views
    ensures var t' := TypeChanged(t, id, change); row in t'.views && t'.views[row] == t.views[row] && HeadOf(t'.heads, row) == HeadOf(t.heads, row)
  {}

  lemma TypeKeepsRow(s: State, step: Step, row: int)
    requires TablesOk(s.tables) && (step.TypeLock? || step.TypeEnd? || step.TypeInsert?)
    requires row in s.owner && s.owner[row].ByReorder? && row in s.tables.views
    ensures var t := Exec(s, step).tables; row in t.views && t.views[row] == s.tables.views[row] && HeadOf(t.heads, row) == HeadOf(s.tables.heads, row)
  {
    hide Shows, TypeChanged;
    if step.TypeEnd? && step.id != row { ChangedElsewhere(s.tables, step.id, step.change, row); }
  }

  lemma TypeKeepsCurrent(s: State, step: Step, req: WriteRequest, state: OrderState, effective: seq<Key>)
    requires TablesOk(s.tables) && (step.TypeLock? || step.TypeEnd? || step.TypeInsert?)
    requires state.typeId in s.owner && s.owner[state.typeId].ByReorder? && Current(s.tables, req, state, effective)
    ensures Current(Exec(s, step).tables, req, state, effective)
  {
    TypeKeepsHeld(s, step, req, state.typeId);
    TypeKeepsRow(s, step, state.typeId);
    hide TypeNow, Exec, HeadOf;
  }

  lemma TypeKeepsReorder(s: State, step: Step, tx: nat, r: Reorder)
    requires TablesOk(s.tables) && ReorderOk(s, tx, r) && (step.TypeLock? || step.TypeEnd? || step.TypeInsert?)
    ensures ReorderOk(Exec(s, step), tx, r)
  {
    hide Acceptable, Current, Finds, Shows;
    var s' := Exec(s, step);
    forall row | Owns(s, tx, row) && Finds(s.tables, r.req, row) ensures Finds(s'.tables, r.req, row) {
      TypeKeepsHeld(s, step, r.req, row);
    }
    forall state: OrderState, effective: seq<Key> | Owns(s, tx, state.typeId) && Current(s.tables, r.req, state, effective)
      ensures Current(s'.tables, r.req, state, effective)
    {
      TypeKeepsCurrent(s, step, r.req, state, effective);
    }
    TablesMoved(s, s', tx, r);
  }

  lemma ChangedTables(t: Tables, id: int, change: TypeChange)
    requires TablesOk(t) && id in t.views
    ensures TablesOk(TypeChanged(t, id, change)) && Onward(t, TypeChanged(t, id, change))
  {}

  lemma InsertedTables(t: Tables, id: int, scope: ResourceScope, view: View)
    requires TablesOk(t) && id !in t.issued && scope !in t.types
    ensures TablesOk(Inserted(t, id, scope, view)) && Onward(t, Inserted(t, id, scope, view))
  {}

  lemma TypeKeepsTables(s: State, step: Step)
    requires TablesOk(s.tables) && (step.TypeLock? || step.TypeEnd? || step.TypeInsert?)
    ensures TablesOk(Exec(s, step).tables) && Onward(s.tables, Exec(s, step).tables)
  {
    hide Shows, TypeChanged, Inserted, TablesOk;
    if step.TypeEnd? && step.id in s.tables.views { ChangedTables(s.tables, step.id, step.change); }
    if step.TypeInsert? && step.id !in s.tables.issued && step.scope !in s.tables.types { InsertedTables(s.tables, step.id, step.scope, step.view); }
  }

  lemma TypeKeepsShowing(s: State, step: Step)
    requires Shows(s.db, s.tables) && (step.TypeLock? || step.TypeEnd? || step.TypeInsert?)
    ensures Shows(Exec(s, step).db, Exec(s, step).tables)
  {
    hide Shows, TypeChanged, Inserted;
  }

  lemma TypeKeepsInv(s: State, step: Step)
    requires Inv(s) && (step.TypeLock? || step.TypeEnd? || step.TypeInsert?)
    ensures Inv(Exec(s, step))
  {
    hide Acceptable, LogOk, Current, TablesOk, Onward, TypeChanged, Inserted, Shows, Finds;
    var s' := Exec(s, step);
    TypeKeepsTables(s, step);
    TypeKeepsShowing(s, step);
    LogKept(s.tables, s'.tables, s.log);
    forall tx | tx in s'.reorders ensures ReorderOk(s', tx, s'.reorders[tx]) {
      TypeKeepsReorder(s, step, tx, s.reorders[tx]);
    }
  }

  lemma LayoutKeepsReorder(s: State, step: Step, tx: nat, r: Reorder)
    requires step.Layout? && ReorderOk(s, tx, r)
    ensures ReorderOk(Exec(s, step), tx, r)
  {
    hide Acceptable, ExactScope, Shows;
    TablesMoved(s, Exec(s, step), tx, r);
  }

  lemma LayoutTables(s: State, step: Step)
    requires step.Layout? && TablesOk(s.tables) && Shows(s.db, s.tables)
    ensures var s' := Exec(s, step);
      && TablesOk(s'.tables) && Onward(s.tables, s'.tables) && Shows(s'.db, s'.tables)
      && s' == s.(tables := s'.tables, db := s'.db)
  {}

  lemma LayoutKeepsInv(s: State, step: Step)
    requires Inv(s) && step.Layout?
    ensures Inv(Exec(s, step))
  {
    LayoutTables(s, step);
    hide Exec, LogOk, ReorderOk, TablesOk, Onward, Shows;
    var s' := Exec(s, step);
    LogKept(s.tables, s'.tables, s.log);
    forall tx | tx in s'.reorders ensures ReorderOk(s', tx, s'.reorders[tx]) {
      LayoutKeepsReorder(s, step, tx, s.reorders[tx]);
    }
  }

  lemma StepKeepsInv(s: State, step: Step, perform: Performer)
    requires KeepsTypeScopes(perform) && Inv(s) && Genuine(s, step, perform)
    ensures Inv(Exec(s, step))
  {
    hide Inv, WriteStep, CommitStep, Finish, Enter, TypeChanged, Inserted, Genuine, StructuralAllowed, Shows;
    match step {
      case Ask(tx, req) => AskKeepsInv(s, tx, req);
      case LockRow(tx) => if PhaseOf(s, tx).Asked? { LockRowKeepsInv(s, tx); }
      case LockShare(tx) => if PhaseOf(s, tx).RowLocked? && s.writers == {} { LockShareKeepsInv(s, tx); }
      case Abort(tx) => if tx in s.reorders { FinishKeepsInv(s, tx); }
      case Write(tx) => if PhaseOf(s, tx).ShareLocked? { WriteKeepsInv(s, tx); }
      case Verify(tx) => if PhaseOf(s, tx).Written? { VerifyKeepsInv(s, tx); }
      case Commit(tx, applied) => if PhaseOf(s, tx).Verified? { CommitEitherWay(s, tx, applied); }
      case StructuralBegin(w) => StructuralBeginKeepsInv(s, w);
      case StructuralEnd(_, _, _, _, _, _, _) => if StructuralAllowed(s, step) { StructuralEndKeepsInv(s, step, perform); }
      case TypeLock(_, _) => TypeKeepsInv(s, step);
      case TypeEnd(_, _, _, _) => TypeKeepsInv(s, step);
      case TypeInsert(_, _, _, _) => TypeKeepsInv(s, step);
      case Layout(_, _, _) => LayoutKeepsInv(s, step);
    }
  }

  lemma CommitEitherWay(s: State, tx: nat, applied: bool)
    requires Inv(s) && PhaseOf(s, tx).Verified?
    ensures Inv(CommitStep(s, tx, applied))
  {
    CommitKeepsInv(s, tx);
    FinishKeepsInv(s, tx);
    hide Inv, Finish;
  }

  lemma {:induction false} RunsKeepInv(s: State, steps: seq<Step>, perform: Performer)
    requires KeepsTypeScopes(perform) && Init(s) && GenuineRun(s, steps, perform)
    ensures Inv(Run(s, steps))
  {
    hide Exec;
    if steps != [] {
      var n := |steps| - 1;
      assert forall i :: 0 <= i < n ==> steps[..n][..i] == steps[..i];
      RunsKeepInv(s, steps[..n], perform);
      hide Inv, Genuine;
      assert Genuine(Run(s, steps[..n]), steps[n], perform);
      StepKeepsInv(Run(s, steps[..n]), steps[n], perform);
    }
  }

  // ----- theorems over all runs -----

  /** In every interleaving, every reorder that takes effect stores an exact permutation of the bindings
      its scope has at the moment of commit. */
  lemma CommittedOrderIsExact(s: State, steps: seq<Step>, perform: Performer, e: Applied)
    requires KeepsTypeScopes(perform) && Init(s) && GenuineRun(s, steps, perform) && e in Run(s, steps).log
    ensures Distinct(e.ids) && multiset(e.ids) == multiset(e.membership)
  {
    RunsKeepInv(s, steps, perform);
    hide Run, ReordersOk;
    var log := Run(s, steps).log;
    var i :| 0 <= i < |log| && log[i] == e;
    assert EntryOk(Run(s, steps).tables, log[i]);
  }

  /** A token is accepted by at most one reorder that takes effect, whether or not its commit was
      acknowledged and however often the request is replayed. */
  lemma TokenHasOneWinner(s: State, steps: seq<Step>, perform: Performer, i: nat, j: nat)
    requires KeepsTypeScopes(perform) && Init(s) && GenuineRun(s, steps, perform) && i < j < |Run(s, steps).log|
    ensures Run(s, steps).log[i].req.expected != Run(s, steps).log[j].req.expected
  {
    RunsKeepInv(s, steps, perform);
    hide Run, ReordersOk, EntryOk;
  }

  lemma WrittenStanding(s: State, tx: nat)
    requires Inv(s) && PhaseOf(s, tx).Written?
    ensures var r := s.reorders[tx];
      && r.phase.row == r.phase.state.typeId
      && Acceptable(r.req.scope, r.phase.effective, r.phase.state, r.req) && Current(s.tables, r.req, r.phase.state, r.phase.effective)
  {
    hide Acceptable, Current, LogOk, TablesOk, Shows;
    assert ReorderOk(s, tx, s.reorders[tx]);
  }

  /** The type that is read is the type whose row is locked, and the comparison after the write never
      fails, whatever layout writers do in the meantime. */
  lemma ReadBackNeverFails(s: State, steps: seq<Step>, perform: Performer, tx: nat)
    requires KeepsTypeScopes(perform) && Init(s) && GenuineRun(s, steps, perform) && PhaseOf(Run(s, steps), tx).Written?
    ensures PhaseOf(Run(s, steps), tx).row == PhaseOf(Run(s, steps), tx).state.typeId
    ensures ReadsBack(Run(s, steps).tables, Run(s, steps).reorders[tx])
  {
    hide Run, GenuineRun, KeepsTypeScopes, Inv, ReadsBack, Acceptable, Current, Init;
    RunsKeepInv(s, steps, perform);
    var now := Run(s, steps);
    WrittenStanding(now, tx);
    CurrentReadsBack(now.tables, now.reorders[tx]);
  }

  lemma CurrentReadsBack(t: Tables, r: Reorder)
    requires r.phase.Written? && r.phase.row == r.phase.state.typeId
    requires Acceptable(r.req.scope, r.phase.effective, r.phase.state, r.req) && Current(t, r.req, r.phase.state, r.phase.effective)
    ensures ReadsBack(t, r)
  {
    var p, ids := r.phase, PlannedIds(r);
    var mine := Replaced(t, p.row, ids);
    hide Acceptable, AcceptedIds, Readable, Reading, AcceptedKeys;
    var effective := EffectiveOf(mine, p.row);
    assert StateOf(mine, p.row) == p.state.(head := Bumped(t.heads, p.row), saved := ids);
    WriteThenRead(r.req.scope, p.effective, p.state, r.req, effective, Bumped(t.heads, p.row));
  }

  // ----- with the catalog repository as the structural writer -----

  function Repository(p: CoherentWrite.Printer): Performer {
    (db: CatalogRepository.Db, w: CatalogRepository.Write, env: CatalogRepository.Environment) => CatalogRepository.Transact(db, w, env, p)
  }

  /** A committed structural write leaves the codes of all types as they were: the reload must agree with
      the predicted candidate, and no candidate of these kinds changes a type. */
  lemma RepositoryKeepsTypeScopes(p: CoherentWrite.Printer)
    ensures KeepsTypeScopes(Repository(p))
  {
    hide CatalogRepository.Transact;
    forall db: CatalogRepository.Db, w: CatalogRepository.Write, env: CatalogRepository.Environment | Structural(CatalogRepository.KindOf(w))
      ensures TypeScopes(Repository(p)(db, w, env).catalog) == TypeScopes(db.catalog)
    {
      RepositoryLaws.OnlyTypeWritesChangeTypes(db, w, env, p);
      SameTypesSameScopes(CatalogRepository.Transact(db, w, env, p).catalog, db.catalog);
    }
  }

  lemma SameTypesSameScopes(a: ResourceCatalog, b: ResourceCatalog)
    requires multiset(a.types) == multiset(b.types)
    ensures TypeScopes(a) == TypeScopes(b)
  {
    forall t ensures t in a.types <==> t in b.types { RearrangedMember(a.types, b.types, t); }
  }

  /** Whatever reorders, repository writes, type writes and layout writes are interleaved: every reorder
      that takes effect stores an exact permutation of its scope's bindings at that moment, and no token
      is ever accepted twice. */
  lemma RunsWithTheRepositoryAreSafe(s: State, steps: seq<Step>, p: CoherentWrite.Printer)
    requires Init(s) && GenuineRun(s, steps, Repository(p))
    ensures var log := Run(s, steps).log;
      && (forall i :: 0 <= i < |log| ==> Distinct(log[i].ids) && multiset(log[i].ids) == multiset(log[i].membership))
      && (forall i, j :: 0 <= i < j < |log| ==> log[i].req.expected != log[j].req.expected)
  {
    hide Run, GenuineRun, KeepsTypeScopes, Repository, Distinct;
    RepositoryKeepsTypeScopes(p);
    var log := Run(s, steps).log;
    forall i | 0 <= i < |log| ensures Distinct(log[i].ids) && multiset(log[i].ids) == multiset(log[i].membership) {
      CommittedOrderIsExact(s, steps, Repository(p), log[i]);
    }
    forall i, j | 0 <= i < j < |log| ensures log[i].req.expected != log[j].req.expected {
      TokenHasOneWinner(s, steps, Repository(p), i, j);
    }
  }

  // ----- why the locked row must be the row that is read -----

  /** The request would be accepted if it were read now. */
  predicate StillAcceptable(t: Tables, req: WriteRequest) {
    var found := TypeNow(t, req);
    found.Some? && Acceptable(req.scope, EffectiveOf(t, found.value), StateOf(t, found.value), req)
  }

  /** A write that stores an accepted order under some row leaves its request acceptable exactly when
      the scope resolves to another row.  No writer above brings that about; it takes a change of codes
      behind their backs. */
  lemma ReplayableExactlyWhenMoved(t: Tables, row: int, req: WriteRequest)
    requires StillAcceptable(t, req)
    ensures var id := TypeNow(t, req).value;
      StillAcceptable(Replaced(t, row, AcceptedIds(EffectiveOf(t, id), StateOf(t, id), req)), req) <==> row != id
  {
    var id := TypeNow(t, req).value;
    var t' := Replaced(t, row, AcceptedIds(EffectiveOf(t, id), StateOf(t, id), req));
    TokenOf(req, EffectiveOf(t, id), StateOf(t, id));
    hide AcceptedIds, Acceptable;
    if row == id && StillAcceptable(t', req) {
      TokenOf(req, EffectiveOf(t', id), StateOf(t', id));
      assert false;
    }
    assert row != id ==> StateOf(t', id) == StateOf(t, id) && EffectiveOf(t', id) == EffectiveOf(t, id);
  }
}

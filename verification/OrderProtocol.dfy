/** Concurrent reorders as a state machine over their steps.  A reorder locks its type row, then takes
    SHARE locks on the structural tables, reads, writes, reads back and commits; structural writers,
    type-row writers and layout writers run in between, and every one of them leaves behind a catalog
    database. */
module OrderProtocol {
  import opened Sorting
  import opened Catalog
  import opened AttributeOrder
  import opened OrderStore
  import CatalogRepository
  import Mutation

  /** The bindings of one type and the keys of its effective attributes in evaluation order. */
  datatype View = View(members: seq<Member>, effective: seq<Key>)

  /** The committed tables: which type row a scope's codes resolve to, each type's bindings, the order
      heads and items, and every type id ever issued. */
  datatype Tables = Tables(
    types: map<ResourceScope, int>, views: map<int, View>, heads: map<int, nat>, saved: map<int, seq<int>>, issued: set<int>)

  function StateOf(t: Tables, id: int): OrderState {
    OrderState(id, HeadOf(t.heads, id), if id in t.views then t.views[id].members else [], if id in t.saved then t.saved[id] else [])
  }

  function EffectiveOf(t: Tables, id: int): seq<Key> { if id in t.views then t.views[id].effective else [] }

  /** How far a reorder has got.  `row` is the type it locked, `state` and `effective` what it read
      for the type its scope resolved to once all locks were held. */
  datatype Phase =
    | Asked
    | RowLocked(row: int)
    | ShareLocked(row: int)
    | Written(row: int, state: OrderState, effective: seq<Key>)
    | Verified(row: int, state: OrderState, effective: seq<Key>)
    | Over

  datatype Reorder = Reorder(req: WriteRequest, phase: Phase)

  datatype Holder = ByReorder(tx: nat) | ByTypeWriter(writer: nat)

  /** A reorder that took effect: its request, the row it wrote, the ids it stored, and the bindings its
      scope had at that moment. */
  datatype Applied = Applied(req: WriteRequest, row: int, ids: seq<int>, membership: seq<int>)

  /** `db` is the catalog database over the same rows. */
  datatype State = State(
    tables: Tables, db: CatalogRepository.Db, reorders: map<nat, Reorder>, owner: map<int, Holder>, share: set<nat>, writers: set<nat>, log: seq<Applied>)

  datatype TypeChange = Renamed(scope: ResourceScope, view: View) | Dropped | Kept

  /** What a write to the class or family table does to the codes types are found under. */
  datatype Recode =
    | NoRecode
    | ClassRecode(from: string, to: string)
    | FamilyRecode(klass: string, from: string, toClass: string, to: string)

  datatype Step =
    | Ask(tx: nat, req: WriteRequest)
    | LockRow(tx: nat)
    | LockShare(tx: nat)
    | Write(tx: nat)
    | Verify(tx: nat)
    /** `applied` is false when the commit fails without effect; whether the caller sees an
        acknowledgement does not matter to the tables. */
    | Commit(tx: nat, applied: bool)
    | Abort(tx: nat)
    | StructuralBegin(writer: nat)
    /** The end of the transaction in which the repository performed `write` on a structural table,
        with its effect on codes, bindings and saved items; a rollback has none. */
    | StructuralEnd(
        writer: nat, write: CatalogRepository.Write, env: CatalogRepository.Environment, after: CatalogRepository.Db,
        recode: Recode, views: map<int, View>, saved: map<int, seq<int>>)
    | TypeLock(writer: nat, id: int)
    | TypeEnd(writer: nat, id: int, change: TypeChange, after: CatalogRepository.Db)
    | TypeInsert(id: int, scope: ResourceScope, view: View, after: CatalogRepository.Db)
    | Layout(id: int, effective: seq<Key>, after: CatalogRepository.Db)

  // ----- steps -----

  function PhaseOf(s: State, tx: nat): Phase { if tx in s.reorders then s.reorders[tx].phase else Over }

  function Enter(s: State, tx: nat, phase: Phase): State
    requires tx in s.reorders
  {
    s.(reorders := s.reorders[tx := s.reorders[tx].(phase := phase)])
  }

  /** The end of a transaction gives back its locks. */
  function Finish(s: State, tx: nat): State
    requires tx in s.reorders
  {
    Enter(s, tx, Over).(owner := map id | id in s.owner && s.owner[id] != ByReorder(tx) :: s.owner[id], share := s.share - {tx})
  }

  /** The type row the request's scope resolves to now. */
  function TypeNow(t: Tables, req: WriteRequest): Option<int> {
    var scope := ExactScope(req.scope);
    if scope.Ok? && scope.value in t.types then Some(t.types[scope.value]) else None
  }

  /** The tables with a reorder's items replaced and its head raised. */
  function Replaced(t: Tables, row: int, ids: seq<int>): Tables {
    t.(heads := t.heads[row := Bumped(t.heads, row)], saved := t.saved[row := ids])
  }

  function PlannedIds(r: Reorder): seq<int>
    requires r.phase.Written? || r.phase.Verified?
  {
    AcceptedIds(r.phase.effective, r.phase.state, r.req)
  }

  function WriteStep(s: State, tx: nat): State
    requires PhaseOf(s, tx).ShareLocked?
  {
    var r := s.reorders[tx];
    var found := TypeNow(s.tables, r.req);
    if found.None? then Finish(s, tx)
    else
      var state, effective := StateOf(s.tables, found.value), EffectiveOf(s.tables, found.value);
      if Acceptable(r.req.scope, effective, state, r.req) then Enter(s, tx, Written(r.phase.row, state, effective)) else Finish(s, tx)
  }

  /** The transaction reads its own writes and compares. */
  predicate ReadsBack(t: Tables, r: Reorder)
    requires r.phase.Written?
  {
    var mine := Replaced(t, r.phase.row, PlannedIds(r));
    var found := TypeNow(mine, r.req);
    && found.Some?
    && var state, effective := StateOf(mine, found.value), EffectiveOf(mine, found.value);
      Readable(r.req.scope, effective, state) && Reading(r.req.scope, effective, state).ordered == AcceptedKeys(r.req)
  }

  /** The codes of the catalog's types. */
  function TypeScopes(c: ResourceCatalog): set<ResourceScope> {
    set t | t in c.types :: ResourceScope(t.classCode, t.familyCode, t.code)
  }

  /** The catalog shows exactly the types the scopes resolve to. */
  predicate Shows(db: CatalogRepository.Db, t: Tables) { TypeScopes(db.catalog) == t.types.Keys }

  function Recoded(c: ResourceScope, r: Recode): ResourceScope {
    match r
    case NoRecode => c
    case ClassRecode(from, to) => if c.classCode == from then c.(classCode := to) else c
    case FamilyRecode(klass, from, toClass, to) =>
      if c.classCode == klass && c.familyCode == from then c.(classCode := toClass, familyCode := to) else c
  }

  /** The tables' uniqueness constraints keep recoded types apart. */
  predicate KeepsApart(types: map<ResourceScope, int>, r: Recode) {
    forall a, b :: a in types && b in types && Recoded(a, r) == Recoded(b, r) ==> a == b
  }

  function RecodedTypes(types: map<ResourceScope, int>, r: Recode): map<ResourceScope, int>
    requires KeepsApart(types, r)
  {
    map c | c in types :: Recoded(c, r) := types[c]
  }

  /** The structural writer's effect is one the tables allow, and its catalog shows it. */
  predicate StructuralAllowed(s: State, step: Step)
    requires step.StructuralEnd?
  {
    && step.writer in s.writers && step.views.Keys == s.tables.views.Keys && KeepsApart(s.tables.types, step.recode)
    && TypeScopes(step.after.catalog) == RecodedTypes(s.tables.types, step.recode).Keys
  }

  /** What a commit leaves in the log. */
  function EntryFor(t: Tables, r: Reorder): Applied
    requires r.phase.Verified?
  {
    var found := TypeNow(t, r.req);
    Applied(r.req, r.phase.row, PlannedIds(r), if found.Some? then Map(IdOf, StateOf(t, found.value).members) else [])
  }

  function CommitStep(s: State, tx: nat, applied: bool): State
    requires PhaseOf(s, tx).Verified?
  {
    var r := s.reorders[tx];
    if applied then
      Finish(s, tx).(tables := Replaced(s.tables, r.phase.row, PlannedIds(r)), log := s.log + [EntryFor(s.tables, r)])
    else Finish(s, tx)
  }

  function Others(types: map<ResourceScope, int>, id: int): map<ResourceScope, int> {
    map c | c in types && types[c] != id :: types[c]
  }

  function TypeChanged(t: Tables, id: int, change: TypeChange): Tables {
    match change
    case Kept => t
    case Dropped => t.(types := Others(t.types, id), views := t.views - {id}, heads := t.heads - {id}, saved := t.saved - {id})
    case Renamed(scope, view) =>
      if scope in Others(t.types, id) then t else t.(types := Others(t.types, id)[scope := id], views := t.views[id := view])
  }

  /** A step that is not enabled leaves everything as it is. */
  function Exec(s: State, step: Step): State {
    match step
    case Ask(tx, req) => if tx in s.reorders then s else s.(reorders := s.reorders[tx := Reorder(req, Asked)])
    case LockRow(tx) =>
      if !PhaseOf(s, tx).Asked? then s
      else
        var found := TypeNow(s.tables, s.reorders[tx].req);
        if found.None? then Finish(s, tx)
        else if found.value in s.owner then s
        else Enter(s, tx, RowLocked(found.value)).(owner := s.owner[found.value := ByReorder(tx)])
    case LockShare(tx) =>
      if PhaseOf(s, tx).RowLocked? && s.writers == {} then
        Enter(s, tx, ShareLocked(PhaseOf(s, tx).row)).(share := s.share + {tx})
      else s
    case Write(tx) => if PhaseOf(s, tx).ShareLocked? then WriteStep(s, tx) else s
    case Verify(tx) =>
      if !PhaseOf(s, tx).Written? then s
      else if ReadsBack(s.tables, s.reorders[tx]) then
        var p := PhaseOf(s, tx); Enter(s, tx, Verified(p.row, p.state, p.effective))
      else Finish(s, tx)
    case Commit(tx, applied) => if PhaseOf(s, tx).Verified? then CommitStep(s, tx, applied) else s
    case Abort(tx) => if tx in s.reorders then Finish(s, tx) else s
    case StructuralBegin(w) => if s.share == {} then s.(writers := s.writers + {w}) else s
    case StructuralEnd(w, write, env, after, recode, views, saved) =>
      if StructuralAllowed(s, step) then
        s.(tables := s.tables.(types := RecodedTypes(s.tables.types, recode), views := views, saved := saved),
          db := after, writers := s.writers - {w})
      else s
    case TypeLock(w, id) => if id in s.tables.views && id !in s.owner then s.(owner := s.owner[id := ByTypeWriter(w)]) else s
    case TypeEnd(w, id, change, after) =>
      if id in s.owner && s.owner[id] == ByTypeWriter(w) && id in s.tables.views && Shows(after, TypeChanged(s.tables, id, change)) then
        s.(tables := TypeChanged(s.tables, id, change), db := after, owner := s.owner - {id})
      else s
    case TypeInsert(id, scope, view, after) =>
      if id !in s.tables.issued && scope !in s.tables.types && Shows(after, Inserted(s.tables, id, scope, view)) then
        s.(tables := Inserted(s.tables, id, scope, view), db := after)
      else s
    case Layout(id, effective, after) =>
      if id in s.tables.views && multiset(effective) == multiset(s.tables.views[id].effective) && Shows(after, s.tables) then
        s.(tables := s.tables.(views := s.tables.views[id := s.tables.views[id].(effective := effective)]), db := after)
      else s
  }

  function Inserted(t: Tables, id: int, scope: ResourceScope, view: View): Tables {
    t.(types := t.types[scope := id], views := t.views[id := view], issued := t.issued + {id})
  }

  function Run(s: State, steps: seq<Step>): State {
    if steps == [] then s else Exec(Run(s, steps[..|steps| - 1]), steps[|steps| - 1])
  }

  // ----- the invariant -----

  predicate TablesOk(t: Tables) {
    t.types.Values <= t.views.Keys && t.views.Keys <= t.issued && t.heads.Keys <= t.views.Keys
  }

  /** What was read is still so, apart from the layout. */
  predicate Current(t: Tables, req: WriteRequest, state: OrderState, effective: seq<Key>) {
    && TypeNow(t, req) == Some(state.typeId) && state.typeId in t.views
    && t.views[state.typeId].members == state.members
    && multiset(t.views[state.typeId].effective) == multiset(effective)
    && HeadOf(t.heads, state.typeId) == state.head
  }

  predicate Owns(s: State, tx: nat, row: int) {
    row in s.owner && s.owner[row] == ByReorder(tx) && row in s.tables.views
  }

  predicate WriteOk(s: State, tx: nat, r: Reorder, row: int, state: OrderState, effective: seq<Key>) {
    && Owns(s, tx, row) && tx in s.share && row == state.typeId
    && Acceptable(r.req.scope, effective, state, r.req) && Current(s.tables, r.req, state, effective)
  }

  /** The request's scope still resolves to the row. */
  predicate Finds(t: Tables, req: WriteRequest, row: int) { TypeNow(t, req) == Some(row) }

  predicate ReorderOk(s: State, tx: nat, r: Reorder) {
    match r.phase
    case Asked => true
    case RowLocked(row) => Owns(s, tx, row) && Finds(s.tables, r.req, row)
    case ShareLocked(row) => Owns(s, tx, row) && tx in s.share && Finds(s.tables, r.req, row)
    case Written(row, state, effective) => WriteOk(s, tx, r, row, state, effective)
    case Verified(row, state, effective) => WriteOk(s, tx, r, row, state, effective)
    case Over => true
  }

  /** The token names this type and can no longer be current for it. */
  predicate Retired(t: Tables, e: Applied) {
    && e.req.expected.Sealed? && e.req.expected.typeId == e.row && e.row in t.issued
    && (e.row in t.views ==> e.req.expected.head < HeadOf(t.heads, e.row))
  }

  predicate EntryOk(t: Tables, e: Applied) {
    Retired(t, e) && Distinct(e.ids) && multiset(e.ids) == multiset(e.membership)
  }

  predicate LogOk(t: Tables, log: seq<Applied>) {
    && (forall i :: 0 <= i < |log| ==> EntryOk(t, log[i]))
    && (forall i, j :: 0 <= i < j < |log| ==> log[i].req.expected != log[j].req.expected)
  }

  predicate ReordersOk(s: State) { forall tx :: tx in s.reorders ==> ReorderOk(s, tx, s.reorders[tx]) }

  predicate Inv(s: State) {
    && (s.share != {} ==> s.writers == {})
    && TablesOk(s.tables) && Shows(s.db, s.tables) && ReordersOk(s) && LogOk(s.tables, s.log)
  }

  predicate Init(s: State) {
    TablesOk(s.tables) && Shows(s.db, s.tables) && s.reorders == map[] && s.share == {} && s.writers == {} && s.log == []
  }

  // ----- the structural writers -----

  /** The kinds whose rows live in the SHARE-locked tables. */
  predicate Structural(k: Mutation.Kind) {
    k == Mutation.KindClass || k == Mutation.KindFamily || k == Mutation.KindDefinition || k == Mutation.KindBinding
  }

  /** What the catalog repository makes of a write. */
  type Performer = (CatalogRepository.Db, CatalogRepository.Write, CatalogRepository.Environment) -> CatalogRepository.Db

  /** Structural writes are the work of the performer. */
  predicate Genuine(s: State, step: Step, perform: Performer) {
    step.StructuralEnd? ==> Structural(CatalogRepository.KindOf(step.write)) && step.after == perform(s.db, step.write, step.env)
  }

  predicate GenuineRun(s: State, steps: seq<Step>, perform: Performer) {
    hide Exec;
    forall i :: 0 <= i < |steps| ==> Genuine(Run(s, steps[..i]), steps[i], perform)
  }

  /** A structural write leaves the codes of all types as they were. */
  ghost predicate KeepsTypeScopes(perform: Performer) {
    forall db: CatalogRepository.Db, w: CatalogRepository.Write, env: CatalogRepository.Environment ::
      Structural(CatalogRepository.KindOf(w)) ==> TypeScopes(perform(db, w, env).catalog) == TypeScopes(db.catalog)
  }
}

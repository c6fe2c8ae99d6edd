/** The catalog repository: every write is one transaction that looks up the record, changes one row
    under a revision check, reloads the whole catalog, and commits only if the reload is valid and
    agrees with the predicted candidate.  What the SQL engine does inside the transaction is an
    input. */
module CatalogRepository {
  import opened Catalog
  import opened Validation
  import opened Mutation
  import opened CoherentWrite

  datatype RowId = RowId(kind: Kind, id: int)

  /** The committed database: the catalog a reload yields, the record each row reads back as, each
      row's revision, and every row id the sequences have handed out. */
  datatype Db = Db(
    catalog: ResourceCatalog, records: map<RowId, Record>, revisions: map<RowId, nat>, issued: set<RowId>)

  predicate WellFormed(db: Db) {
    && db.revisions.Keys <= db.issued
    && forall k :: k in db.revisions ==> db.revisions[k] > 0
  }

  datatype Write =
    | InsertRow(record: Record)
    | UpdateRow(record: Record, expected: nat)
    | SetActiveRow(id: RowId, active: bool, expected: nat)
    | DeleteRow(id: RowId, expected: nat)

  function KindOf(w: Write): Kind {
    match w
    case InsertRow(r) => r.kind
    case UpdateRow(r, _) => r.kind
    case SetActiveRow(k, _, _) => k.kind
    case DeleteRow(k, _) => k.kind
  }

  /** The row of an existing record that a write addresses. */
  function Target(w: Write): RowId
    requires !w.InsertRow?
  {
    match w
    case UpdateRow(r, _) => RowId(r.kind, r.id)
    case SetActiveRow(k, _, _) => k
    case DeleteRow(k, _) => k
  }

  function OpOf(w: Write): Op {
    match w
    case InsertRow(_) => Insert
    case UpdateRow(_, _) => Update
    case SetActiveRow(_, active, _) => if active then Reactivate else Deactivate
    case DeleteRow(_, _) => Delete
  }

  /** Where, if anywhere, the connection fails. */
  datatype Fault = NoFault | AtBegin | AtLookup | AtLoad | AtReload

  datatype Violation = DuplicateKey | BadReference | StillReferenced | BrokenStatement

  function ViolationError(v: Violation): Error {
    match v
    case DuplicateKey => Duplicate
    case BadReference => Reference
    case StillReferenced => InUse
    case BrokenStatement => Internal
  }

  /** What the statements do: one is refused, either while references are being resolved or on the
      row itself, or they leave these tables behind.  `newId` is the id the sequence hands to an
      insert. */
  datatype Physical =
    | Refused(violation: Violation, resolving: bool)
    | Performed(newId: int, catalog: ResourceCatalog, records: map<RowId, Record>)

  /** A commit whose acknowledgement is lost may or may not have been applied. */
  datatype Commit = Acknowledged | Lost(applied: bool)

  datatype Environment = Environment(fault: Fault, physical: Physical, commit: Commit)

  /** The record is absent after a delete. */
  datatype Receipt = Receipt(record: Option<Record>, catalog: ResourceCatalog)

  // ----- the steps -----

  /** What is refused before any transaction begins. */
  function Inadmissible(w: Write): Option<Error> {
    if KindOf(w) == KindBinding && (w.InsertRow? || w.UpdateRow?) && w.record.rules.None? then Some(Error.Validation)
    else if KindOf(w).KindOther? then Some(KindUnknown)
    else None
  }

  /** A row read by kind and id carries both. */
  function RecordAt(db: Db, k: RowId): Record
    requires k in db.records
  {
    db.records[k].(kind := k.kind, id := k.id)
  }

  function BuildMutation(db: Db, w: Write): Result<CatalogMutation> {
    if w.InsertRow? then Ok(CatalogMutation(Insert, w.record, None))
    else if Target(w) !in db.records then Err(NotFound)
    else Ok(CatalogMutation(OpOf(w), RecordAt(db, Target(w)), if w.UpdateRow? then Some(w.record) else None))
  }

  /** Why the revision check fails, if it does. */
  function CasError(revisions: map<RowId, nat>, k: RowId, expected: nat): Option<Error> {
    if expected == 0 then Some(RevisionRequired)
    else if k !in revisions then Some(NotFound)
    else if revisions[k] != expected then Some(RevisionConflict)
    else None
  }

  function RowError(db: Db, w: Write, physical: Physical): Option<Error> {
    var stale := if w.InsertRow? then None else CasError(db.revisions, Target(w), w.expected);
    if physical.Refused? && physical.resolving then Some(ViolationError(physical.violation))
    else if stale.Some? then stale
    else if physical.Refused? then Some(ViolationError(physical.violation))
    else if w.InsertRow? && RowId(w.record.kind, physical.newId) in db.issued then Some(Integrity)
    else None
  }

  /** The tables once the statements have run. */
  function Changed(db: Db, w: Write, physical: Physical): Db
    requires physical.Performed? && RowError(db, w, physical).None?
  {
    var row := if w.InsertRow? then RowId(w.record.kind, physical.newId) else Target(w);
    Db(physical.catalog, physical.records,
      match w
        case InsertRow(_) => db.revisions[row := 1]
        case DeleteRow(_, _) => db.revisions - {row}
        case _ => db.revisions[row := db.revisions[row] + 1],
      db.issued + {row})
  }

  function ReceiptFor(w: Write, after: Db, physical: Physical): Receipt
    requires physical.Performed?
    requires w.UpdateRow? || w.SetActiveRow? ==> Target(w) in after.revisions
  {
    var record := match w
      case InsertRow(r) => Some(r.(id := physical.newId, revision := 1))
      case UpdateRow(r, _) => Some(r.(revision := after.revisions[Target(w)]))
      case SetActiveRow(k, active, _) => Some(Record(k.kind, k.id, after.revisions[k], active, map[], None))
      case DeleteRow(_, _) => None;
    Receipt(record, after.catalog)
  }

  // ----- the repository -----

  class Repository {
    var db: Db
    const printer: Printer
    /** Whether a lost acknowledgement is reported as an indeterminate outcome. */
    const signals: bool

    constructor (db: Db, printer: Printer, signals: bool)
      ensures this.db == db && this.printer == printer && this.signals == signals
    {
      this.db, this.printer, this.signals := db, printer, signals;
    }

    /** The coherent transaction: on the committed tables it does exactly what Transact says. */
    method RunCoherentTx(w: Write, env: Environment) returns (r: Result<Receipt>)
      modifies this
      ensures db == Transact(old(db), w, env, printer)
      ensures r == Reply(old(db), w, env, printer, signals)
    {
      hide ReferencesResolve, RulesKept, Agree, ApplyCatalogMutation;
      var early := Inadmissible(w);
      if early.Some? { return Err(early.value); }
      if env.fault == AtBegin { return Err(Internal); }
      if env.fault == AtLookup && !w.InsertRow? { return Err(Internal); }
      var mutation := BuildMutation(db, w);
      if mutation.Err? { return Err(mutation.error); }
      if env.fault == AtLoad { return Err(Internal); }
      var before := db.catalog;
      var refused := RowError(db, w, env.physical);
      if refused.Some? { return Err(refused.value); }
      var pending := Changed(db, w, env.physical);
      var candidate := ApplyCatalogMutation(before, mutation.value);
      if candidate.Err? { return Err(candidate.error); }
      if env.fault == AtReload { return Err(Internal); }
      var errs := Validate(pending.catalog);
      if errs != [] { return Err(Defects(Error.Reference in errs, Error.Validation in errs)); }
      if !Agree(pending.catalog, candidate.value, printer) { return Err(CandidateMismatch); }
      if env.commit.Lost? {
        if env.commit.applied { db := pending; }
        return Err(if signals then Indeterminate else Internal);
      }
      db := pending;
      return Ok(ReceiptFor(w, pending, env.physical));
    }
  }

  // ----- what a transaction means -----

  /** The connection survives every statement of the write. */
  predicate Unbroken(w: Write, fault: Fault) {
    fault == NoFault || (fault == AtLookup && w.InsertRow?)
  }

  /** The write reaches its commit: its record exists, its revision matches, the engine performs it,
      the mutation engine predicts a result, and the reloaded catalog is valid and agrees with the
      prediction. */
  predicate Lands(db: Db, w: Write, env: Environment, p: Printer) {
    hide Valid, Agree, ApplyCatalogMutation;
    && Inadmissible(w).None? && Unbroken(w, env.fault)
    && BuildMutation(db, w).Ok?
    && env.physical.Performed? && RowError(db, w, env.physical).None?
    && var candidate := ApplyCatalogMutation(db.catalog, BuildMutation(db, w).value);
      && candidate.Ok? && Valid(env.physical.catalog) && Agree(env.physical.catalog, candidate.value, p)
  }

  /** The committed tables afterwards. */
  function Transact(db: Db, w: Write, env: Environment, p: Printer): Db {
    hide Valid, Agree, ApplyCatalogMutation;
    if Lands(db, w, env, p) && env.commit != Lost(false) then Changed(db, w, env.physical) else db
  }

  /** The first obstacle, in the order the transaction meets them. */
  function Refusal(db: Db, w: Write, env: Environment, p: Printer): Error {
    hide ReferencesResolve, RulesKept, Valid, Agree, ApplyCatalogMutation;
    if Inadmissible(w).Some? then Inadmissible(w).value
    else if env.fault == AtBegin || (env.fault == AtLookup && !w.InsertRow?) then Internal
    else if BuildMutation(db, w).Err? then BuildMutation(db, w).error
    else if env.fault == AtLoad then Internal
    else if RowError(db, w, env.physical).Some? then RowError(db, w, env.physical).value
    else
      var candidate := ApplyCatalogMutation(db.catalog, BuildMutation(db, w).value);
      if candidate.Err? then candidate.error
      else if env.fault == AtReload then Internal
      else if env.physical.Performed? && !Valid(env.physical.catalog) then DefectsOf(env.physical.catalog)
      else CandidateMismatch
  }

  function Reply(db: Db, w: Write, env: Environment, p: Printer, signals: bool): Result<Receipt> {
    hide Valid, Agree, ApplyCatalogMutation;
    if !Lands(db, w, env, p) then Err(Refusal(db, w, env, p))
    else if env.commit.Lost? then Err(if signals then Indeterminate else Internal)
    else Ok(ReceiptFor(w, Changed(db, w, env.physical), env.physical))
  }
}

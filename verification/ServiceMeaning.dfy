/** What the service stops, what it answers, and what must be so for a write to complete. */
module ServiceMeaning {
  import opened Text
  import opened Catalog
  import opened Validation
  import opened Mutation
  import opened CoherentWrite
  import opened CatalogRepository
  import opened RepositoryLaws
  import opened CatalogService
  import opened ServiceLaws

  /** The call is answered with an error, and nothing moves. */
  predicate Refuses(w: World, q: Request, p: Printer, signals: bool, e: Error) {
    hide Transact, Reply, Guard;
    AnswerOf(w, q.call, q.weather, p, signals) == Err(e) && Step(w, q.call, q.weather, p, signals) == w
  }

  /** The writer is up. */
  predicate Ready(w: World) { !w.unavailable && w.configured }

  /** An update, switch or delete without an id or an expected revision. */
  predicate Incomplete(c: Call) {
    match c
    case UpdateRevision(r, expected) => r.id == 0 || expected == 0
    case SetActiveRevision(k, _, expected) => k.id == 0 || expected == 0
    case HardDeleteRevision(k, expected) => k.id == 0 || expected == 0
    case CreateV2(_) => false
    case ResetAvailability => false
  }

  /** An incomplete call, a latched writer and an unconfigured one are told apart, in this order. */
  lemma PreparationOutcomes(w: World, q: Request, p: Printer, signals: bool)
    requires q.call != ResetAvailability && (Incomplete(q.call) || !Ready(w))
    ensures Refuses(w, q, p, signals, if Incomplete(q.call) then InvalidArgument else if w.unavailable then WriterLatched else Unavailable)
  {
    hide Transact, Reply, Guard;
  }

  /** The seven kinds with a code. */
  const CODED: set<Kind> := {KindClass, KindFamily, KindType, KindDefinition, KindOptionSet, KindOption, KindUnit}

  /** What is written has its code canonical and is otherwise what was asked for. */
  lemma WrittenCodesAreCanonical(r: Record, expected: nat)
    ensures forall w :: w == WriteOf(CreateV2(r)) || w == WriteOf(Call.UpdateRevision(r, expected)) ==>
      var v := w.record;
      && v == r.(values := v.values) && v.values.Keys == r.values.Keys
      && (forall f :: f in r.values && !(f == "code" && r.kind in CODED) ==> v.values[f] == r.values[f])
      && ("code" in r.values && r.kind in CODED ==> v.values["code"] == r.values["code"].(text := Canonical(r.values["code"].text)))
  {
    hide Canonical;
  }

  // ----- hard delete -----

  /** Why a hard delete of a ready service is refused: the record cannot be read, is active, cannot be
      checked, or is still used. */
  lemma DeleteRefusals(w: World, q: Request, p: Printer, signals: bool)
    requires Ready(w) && q.call.HardDeleteRevision? && q.call.id.id != 0 && q.call.expected != 0
    ensures var id, look := q.call.id, q.weather.look;
      var known := !id.kind.KindOther? && !look.fail;
      && (id.kind.KindOther? ==> Refuses(w, q, p, signals, KindUnknown))
      && (!id.kind.KindOther? && look.fail ==> Refuses(w, q, p, signals, Internal))
      && (known && id !in w.db.records ==> Refuses(w, q, p, signals, NotFound))
      && (known && id in w.db.records && w.db.records[id].active ==> Refuses(w, q, p, signals, InvalidLifecycle))
      && (known && id in w.db.records && !w.db.records[id].active && look.checksFail ==> Refuses(w, q, p, signals, Internal))
      && (known && id in w.db.records && !w.db.records[id].active && !look.checksFail && (look.dependents || look.referenced) ==>
            Refuses(w, q, p, signals, InUse))
  {
    hide Transact, Reply, CandidateError;
  }

  /** What the mutation would make of the snapshot, if that is valid. */
  predicate Foreseen(snapshot: ResourceCatalog, m: CatalogMutation) {
    var next := ApplyCatalogMutation(snapshot, m);
    next.Ok? && Valid(next.value)
  }

  lemma ForeseenIff(snapshot: ResourceCatalog, m: CatalogMutation)
    ensures CandidateError(snapshot, m) == None <==> Foreseen(snapshot, m)
  {
    hide Valid, ApplyCatalogMutation;
  }

  lemma CompletedWasNotTurned(w: World, q: Request, p: Printer, signals: bool)
    requires Writes(w, q, p, signals)
    ensures q.call != ResetAvailability && Turned(w, q.call, q.weather.look) == None && Ready(w) && !MissingArgument(q.call)
    ensures !AlreadySo(w.db, q.call, q.weather.look) && Guard(w.db, w.snapshot, WriteOf(q.call), q.weather.look) == None
  {
    hide Transact, Reply, Guard;
  }

  /** A hard delete completes only for a record that exists, is inactive, has no dependents, is referred to
      by no resource, and whose removal leaves the snapshot valid. */
  lemma CompletedDelete(w: World, q: Request, p: Printer, signals: bool)
    requires q.call.HardDeleteRevision? && Writes(w, q, p, signals)
    ensures var id, look := q.call.id, q.weather.look;
      && id in w.db.records && !w.db.records[id].active && !look.dependents && !look.referenced && !look.fail && !look.checksFail
      && Foreseen(w.snapshot, CatalogMutation(Delete, w.db.records[id].(kind := id.kind, id := id.id), None))
  {
    CompletedWasNotTurned(w, q, p, signals);
    hide Transact, Reply, CandidateError, Foreseen, Turned, Writes;
    ForeseenIff(w.snapshot, CatalogMutation(Delete, RecordAt(w.db, q.call.id), None));
  }

  // ----- update -----

  /** The row to update is looked up in the snapshot under its stored code. */
  function UnderStoredCode(stored: Record, r: Record): Record {
    if r.kind in CODED && "code" in stored.values then r.(values := r.values["code" := stored.values["code"]]) else r
  }

  /** The update gives the record another code. */
  predicate Renames(stored: Record, r: Record) {
    r.kind in CODED && "code" in stored.values && "code" in r.values && stored.values["code"].text != Canonical(r.values["code"].text)
  }

  /** A ready service refuses to rename a record that resources refer to. */
  lemma RenameRefused(w: World, q: Request, p: Printer, signals: bool)
    requires Ready(w) && q.call.UpdateRevision? && q.call.record.id != 0 && q.call.expected != 0
    requires var r, look := q.call.record, q.weather.look;
      var id := RowId(r.kind, r.id);
      !look.fail && !look.checksFail && id in w.db.records && Renames(w.db.records[id], r) && look.referenced
    ensures Refuses(w, q, p, signals, CodeImmutable)
  {
    hide Transact, Reply, CandidateError, Canonical;
  }

  /** What the service's guard lets through. */
  lemma GuardedUpdate(db: Db, snapshot: ResourceCatalog, rec: Record, expected: nat, look: Lookups)
    requires Guard(db, snapshot, UpdateRow(rec, expected), look) == None
    ensures var id := RowId(rec.kind, rec.id);
      && id in db.records && (CodeChanged(RecordAt(db, id), rec) ==> !look.referenced && !look.checksFail)
      && Foreseen(snapshot, CatalogMutation(Update, Frozen(RecordAt(db, id), rec), Some(rec)))
  {
    hide CandidateError, Foreseen, CodeChanged, Frozen;
    var id := RowId(rec.kind, rec.id);
    if id in db.records { ForeseenIff(snapshot, CatalogMutation(Update, Frozen(RecordAt(db, id), rec), Some(rec))); }
  }

  lemma WrittenRenames(db: Db, r: Record)
    requires RowId(r.kind, r.id) in db.records
    ensures var id, written := RowId(r.kind, r.id), CanonicalizeCodes(r);
      && written.kind == r.kind && written.id == r.id
      && (CodeChanged(RecordAt(db, id), written) <==> Renames(db.records[id], r))
      && Frozen(RecordAt(db, id), written) == UnderStoredCode(db.records[id], written)
  {
    hide Canonical;
  }

  /** An update completes only for a record that exists, that keeps its code unless no resource refers to
      it, and whose replacement leaves the snapshot valid. */
  lemma CompletedUpdate(w: World, q: Request, p: Printer, signals: bool)
    requires q.call.UpdateRevision? && Writes(w, q, p, signals)
    ensures var r, look := q.call.record, q.weather.look;
      var id, written := RowId(r.kind, r.id), WriteOf(q.call).record;
      && id in w.db.records && (Renames(w.db.records[id], r) ==> !look.referenced && !look.checksFail)
      && Foreseen(w.snapshot, CatalogMutation(Update, UnderStoredCode(w.db.records[id], written), Some(written)))
  {
    CompletedWasNotTurned(w, q, p, signals);
    hide Transact, Reply, Guard, Foreseen, Turned, Writes, Canonical, CodeChanged, Frozen, UnderStoredCode, Renames, AlreadySo;
    var r := q.call.record;
    assert CanonicalizeCodes(r).kind == r.kind && CanonicalizeCodes(r).id == r.id;
    hide CanonicalizeCodes;
    GuardedUpdate(w.db, w.snapshot, CanonicalizeCodes(r), q.call.expected, q.weather.look);
    WrittenRenames(w.db, r);
  }

  // ----- create and lifecycle -----

  /** A create completes only if the new record leaves the snapshot valid. */
  lemma CompletedCreate(w: World, q: Request, p: Printer, signals: bool)
    requires q.call.CreateV2? && Writes(w, q, p, signals)
    ensures Foreseen(w.snapshot, CatalogMutation(Insert, WriteOf(q.call).record, None))
  {
    CompletedWasNotTurned(w, q, p, signals);
    hide Transact, Reply, CandidateError, Foreseen, Turned, Writes, Canonical;
    ForeseenIff(w.snapshot, CatalogMutation(Insert, WriteOf(q.call).record, None));
  }

  /** Asking for the state a record is in is answered without a write, whatever revision is expected. */
  lemma AlreadySoIsUnchanged(w: World, q: Request, p: Printer, signals: bool)
    requires Ready(w) && q.call.SetActiveRevision? && q.call.id.id != 0 && q.call.expected != 0
    requires !q.call.id.kind.KindOther? && !q.weather.look.fail && q.call.id in w.db.records && w.db.records[q.call.id].active == q.call.active
    ensures AnswerOf(w, q.call, q.weather, p, signals) == Ok(Unchanged) && Step(w, q.call, q.weather, p, signals) == w
  {
    hide Transact, Reply, Guard;
  }

  /** A switch completes only for a record in the other state whose switch leaves the snapshot valid. */
  lemma CompletedSwitch(w: World, q: Request, p: Printer, signals: bool)
    requires q.call.SetActiveRevision? && Writes(w, q, p, signals)
    ensures var id := q.call.id;
      && id in w.db.records && w.db.records[id].active != q.call.active
      && Foreseen(w.snapshot, CatalogMutation(if q.call.active then Reactivate else Deactivate, w.db.records[id].(kind := id.kind, id := id.id), None))
  {
    CompletedWasNotTurned(w, q, p, signals);
    hide Transact, Reply, CandidateError, Foreseen, Turned, Writes;
    ForeseenIff(w.snapshot, CatalogMutation(if q.call.active then Reactivate else Deactivate, RecordAt(w.db, q.call.id), None));
  }

  /** A completed write is answered with the repository's record, if it has one. */
  lemma AnswerMeans(w: World, q: Request, p: Printer, signals: bool)
    requires Writes(w, q, p, signals)
    ensures var reply, answer := Reply(w.db, WriteOf(q.call), q.weather.env, p, signals), AnswerOf(w, q.call, q.weather, p, signals);
      reply.Ok? && (reply.value.record.Some? ==> answer == Ok(Written(reply.value.record))) && (q.call.HardDeleteRevision? ==> answer == Ok(Written(None)))
  {
    CompletedWasNotTurned(w, q, p, signals);
    hide Transact, Guard, Turned, Reply;
    if q.call.HardDeleteRevision? && Reply(w.db, WriteOf(q.call), q.weather.env, p, signals).Ok? {
      DeleteShowsNothing(w.db, WriteOf(q.call), q.weather.env, p, signals);
    }
  }
}

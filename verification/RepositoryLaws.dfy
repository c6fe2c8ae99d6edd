/** Over any run of catalog transactions: every committed state is valid and is the predicted one,
    everything else leaves the database alone, and no update is lost. */
module RepositoryLaws {
  import opened Catalog
  import opened Validation
  import opened Mutation
  import opened MutationLaws
  import opened CoherentWrite
  import opened CatalogRepository

  /** A transaction that changes the database at all, whatever it replies, lands in a valid catalog
      holding the elements the mutation engine predicts from the state before. */
  lemma ChangesAreCoherent(db: Db, w: Write, env: Environment, p: Printer)
    requires Transact(db, w, env, p) != db
    ensures Valid(Transact(db, w, env, p).catalog)
    ensures BuildMutation(db, w).Ok?
    ensures var candidate := ApplyCatalogMutation(db.catalog, BuildMutation(db, w).value);
      candidate.Ok? && SameElementsUpToSpelling(Transact(db, w, env, p).catalog, candidate.value)
  {
    hide Valid, Agree, ApplyCatalogMutation, SameElementsUpToSpelling;
    AgreementIsSound(env.physical.catalog, ApplyCatalogMutation(db.catalog, BuildMutation(db, w).value).value, p);
  }

  /** Whatever changes the database is what the statements left behind. */
  lemma ChangeIsPhysical(db: Db, w: Write, env: Environment, p: Printer)
    requires Transact(db, w, env, p) != db
    ensures env.physical.Performed? && Transact(db, w, env, p).catalog == env.physical.catalog && Transact(db, w, env, p).records == env.physical.records
  {
    hide Valid, Agree, ApplyCatalogMutation;
  }

  /** A committed write of anything but a type leaves the types as they were, up to order. */
  lemma OnlyTypeWritesChangeTypes(db: Db, w: Write, env: Environment, p: Printer)
    requires KindOf(w) != KindType
    ensures multiset(Transact(db, w, env, p).catalog.types) == multiset(db.catalog.types)
  {
    hide Valid, ApplyCatalogMutation, Transact;
    if Transact(db, w, env, p) != db {
      ChangesAreCoherent(db, w, env, p);
      OthersKeepTypes(db.catalog, BuildMutation(db, w).value);
    }
  }

  /** An acknowledged write has been made and its receipt holds the committed catalog; a refused one
      has changed nothing, unless its acknowledgement was lost after the commit. */
  lemma RepliesAreHonest(db: Db, w: Write, env: Environment, p: Printer, signals: bool)
    ensures var r, db' := Reply(db, w, env, p, signals), Transact(db, w, env, p);
      && (r.Ok? ==> db' != db && r.value.catalog == db'.catalog)
      && (r.Err? && !(Lands(db, w, env, p) && env.commit == Lost(true)) ==> db' == db)
  {
    hide Valid, Agree, ApplyCatalogMutation;
    if Lands(db, w, env, p) {
      var after := Changed(db, w, env.physical);
      if w.InsertRow? {
        assert RowId(w.record.kind, env.physical.newId) in after.issued;
      } else if w.DeleteRow? {
        assert Target(w) !in after.revisions;
      } else {
        assert after.revisions[Target(w)] == db.revisions[Target(w)] + 1;
      }
    }
  }

  /** A write is turned away before its transaction for an unknown kind or for a binding without stated
      rules, and in it for a record that cannot be read. */
  lemma AdmissionOutcomes(db: Db, w: Write, env: Environment, p: Printer, signals: bool)
    ensures (w.InsertRow? || w.UpdateRow?) && w.record.kind == KindBinding && w.record.rules == None ==>
      Reply(db, w, env, p, signals) == Err(Error.Validation) && Transact(db, w, env, p) == db
    ensures KindOf(w).KindOther? ==> Reply(db, w, env, p, signals) == Err(KindUnknown) && Transact(db, w, env, p) == db
    ensures !w.InsertRow? && Inadmissible(w) == None && env.fault == NoFault && Target(w) !in db.records ==>
      Reply(db, w, env, p, signals) == Err(NotFound) && Transact(db, w, env, p) == db
  {
    hide Valid, Agree, ApplyCatalogMutation;
  }

  /** The revision check tells a missing revision, a missing row and a stale one apart, and none of them
      changes anything. */
  lemma CasOutcomes(db: Db, w: Write, env: Environment, p: Printer, signals: bool)
    requires !w.InsertRow? && Inadmissible(w) == None && env.fault == NoFault && Target(w) in db.records
    requires env.physical.Refused? ==> !env.physical.resolving
    ensures var k, reply := Target(w), Reply(db, w, env, p, signals);
      && (w.expected == 0 ==> reply == Err(RevisionRequired))
      && (w.expected > 0 && k !in db.revisions ==> reply == Err(NotFound))
      && (w.expected > 0 && k in db.revisions && db.revisions[k] != w.expected ==> reply == Err(RevisionConflict))
      && (w.expected == 0 || k !in db.revisions || db.revisions[k] != w.expected ==> Transact(db, w, env, p) == db)
  {
    hide Valid, Agree, ApplyCatalogMutation;
  }

  /** A receipt shows the record as it was written, under the revision its row has now; an update or switch
      has raised that by one, an insert has started it at one, a delete shows no record. No other row's
      revision moves. */
  lemma ReceiptMeans(db: Db, w: Write, env: Environment, p: Printer, signals: bool)
    requires Reply(db, w, env, p, signals).Ok?
    ensures var record, db' := Reply(db, w, env, p, signals).value.record, Transact(db, w, env, p);
      match w
      case InsertRow(r) =>
        var k := RowId(r.kind, env.physical.newId);
        k !in db.issued && record == Some(r.(id := k.id, revision := 1)) && db'.revisions == db.revisions[k := 1]
      case UpdateRow(r, expected) =>
        var k := RowId(r.kind, r.id);
        k in db.revisions && db.revisions[k] == expected && record == Some(r.(revision := expected + 1)) && db'.revisions == db.revisions[k := expected + 1]
      case SetActiveRow(k, active, expected) =>
        && k in db.revisions && db.revisions[k] == expected && db'.revisions == db.revisions[k := expected + 1]
        && record.Some? && record.value.kind == k.kind && record.value.id == k.id && record.value.active == active &&
          record.value.revision == expected + 1 && record.value.values == map[]
      case DeleteRow(k, expected) =>
        k in db.revisions && db.revisions[k] == expected && record == None && db'.revisions == db.revisions - {k}
  {
    hide Valid, Agree, ApplyCatalogMutation;
  }

  /** The error class of each violation. */
  function ErrorOf(v: Violation): Error {
    match v
    case DuplicateKey => Duplicate
    case BadReference => Reference
    case StillReferenced => InUse
    case BrokenStatement => Internal
  }

  /** Past the revision check: a statement's violation, a mutation that cannot be predicted, a defective
      reload and one that does not agree with the prediction are told apart, and a broken connection
      anywhere is internal.  None of them changes anything. */
  lemma ObstacleOutcomes(db: Db, w: Write, env: Environment, p: Printer, signals: bool)
    requires Inadmissible(w) == None && BuildMutation(db, w).Ok?
    requires w.InsertRow? || CasError(db.revisions, Target(w), w.expected) == None
    requires env.physical.Performed? && w.InsertRow? ==> RowId(w.record.kind, env.physical.newId) !in db.issued
    requires env.fault in {AtBegin, AtLoad} || env.physical.Refused? || ApplyCatalogMutation(db.catalog, BuildMutation(db, w).value).Err? ||
      env.fault == AtReload || !Valid(env.physical.catalog) ||
      !Agree(env.physical.catalog, ApplyCatalogMutation(db.catalog, BuildMutation(db, w).value).value, p)
    requires env.fault == AtLookup ==> w.InsertRow?
    ensures Transact(db, w, env, p) == db
    ensures var candidate := ApplyCatalogMutation(db.catalog, BuildMutation(db, w).value);
      Reply(db, w, env, p, signals) == Err(
        if env.fault in {AtBegin, AtLoad} then Internal
        else if env.physical.Refused? then ErrorOf(env.physical.violation)
        else if candidate.Err? then candidate.error
        else if env.fault == AtReload then Internal
        else if !Valid(env.physical.catalog) then Defects(!ReferencesResolve(env.physical.catalog), !RulesKept(env.physical.catalog))
        else CandidateMismatch)
  {
    hide ReferencesResolve, RulesKept, Valid, Agree, ApplyCatalogMutation, BuildMutation;
  }

  lemma DeleteShowsNothing(db: Db, w: Write, env: Environment, p: Printer, signals: bool)
    requires w.DeleteRow? && Reply(db, w, env, p, signals).Ok?
    ensures Reply(db, w, env, p, signals).value.record == None
  {
    hide Lands, Refusal;
  }

  /** A write the engine performs as predicted is never refused: if the reload is valid and holds
      the candidate's elements, in whatever order, the transaction reaches its commit. */
  lemma FaithfulEngineLands(db: Db, w: Write, env: Environment, p: Printer)
    requires Inadmissible(w).None? && Unbroken(w, env.fault) && BuildMutation(db, w).Ok?
    requires env.physical.Performed? && RowError(db, w, env.physical).None? && Valid(env.physical.catalog)
    requires var candidate := ApplyCatalogMutation(db.catalog, BuildMutation(db, w).value);
      candidate.Ok? && SameContents(env.physical.catalog, candidate.value) && PrinterTellsApart(env.physical.catalog, p)
    ensures Lands(db, w, env, p)
  {
    hide Valid, Agree, ApplyCatalogMutation, SameContents, PrinterTellsApart;
    IdenticalElementsAgree(env.physical.catalog, ApplyCatalogMutation(db.catalog, BuildMutation(db, w).value).value, p);
  }

  // ----- runs -----

  datatype Attempt = Attempt(write: Write, env: Environment)

  function Run(db: Db, run: seq<Attempt>, p: Printer): Db
    decreases |run|
  {
    hide Transact;
    if run == [] then db else Run(Transact(db, run[0].write, run[0].env, p), run[1..], p)
  }

  /** The attempt changes row `k`, which exists. */
  predicate Hits(db: Db, a: Attempt, k: RowId, p: Printer) {
    hide Valid, Agree, ApplyCatalogMutation;
    Lands(db, a.write, a.env, p) && a.env.commit != Lost(false) && !a.write.InsertRow? && Target(a.write) == k
  }

  function Count(db: Db, run: seq<Attempt>, k: RowId, p: Printer): nat
    decreases |run|
  {
    hide Transact, Hits;
    if run == [] then 0
    else (if Hits(db, run[0], k, p) then 1 else 0) + Count(Transact(db, run[0].write, run[0].env, p), run[1..], k, p)
  }

  lemma StepKeepsForm(db: Db, a: Attempt, p: Printer)
    requires WellFormed(db)
    ensures WellFormed(Transact(db, a.write, a.env, p)) && db.issued <= Transact(db, a.write, a.env, p).issued
  {
    hide Valid, Agree, ApplyCatalogMutation;
  }

  /** One step on an issued row: it can only advance by one on a hit, or vanish. */
  lemma StepOnRow(db: Db, a: Attempt, k: RowId, p: Printer)
    requires WellFormed(db) && k in db.issued
    ensures var db' := Transact(db, a.write, a.env, p);
      && (Hits(db, a, k, p) ==> k in db.revisions && db.revisions[k] == a.write.expected)
      && (k in db'.revisions ==>
        k in db.revisions && db'.revisions[k] == db.revisions[k] + if Hits(db, a, k, p) then 1 else 0)
  {
    hide Valid, Agree, ApplyCatalogMutation;
  }

  /** A row that is still there has advanced by exactly the number of committed changes to it. */
  lemma {:induction false} RevisionCountsChanges(db: Db, run: seq<Attempt>, k: RowId, p: Printer)
    requires WellFormed(db) && k in db.issued && k in Run(db, run, p).revisions
    ensures k in db.revisions && Run(db, run, p).revisions[k] == db.revisions[k] + Count(db, run, k, p)
    decreases |run|
  {
    hide Lands, Changed;
    if run != [] {
      StepKeepsForm(db, run[0], p);
      StepOnRow(db, run[0], k, p);
      RevisionCountsChanges(Transact(db, run[0].write, run[0].env, p), run[1..], k, p);
    }
  }

  /** An insert starts its row at revision 1, so from there on the revision is one more than the
      number of committed changes. */
  lemma RevisionSinceInsert(db: Db, a: Attempt, run: seq<Attempt>, p: Printer)
    requires WellFormed(db) && a.write.InsertRow? && Lands(db, a.write, a.env, p) && a.env.commit != Lost(false)
    ensures var k, db' := RowId(a.write.record.kind, a.env.physical.newId), Transact(db, a.write, a.env, p);
      k in Run(db', run, p).revisions ==> Run(db', run, p).revisions[k] == 1 + Count(db', run, k, p)
  {
    hide Valid, Agree, ApplyCatalogMutation;
    StepKeepsForm(db, a, p);
    var k, db' := RowId(a.write.record.kind, a.env.physical.newId), Transact(db, a.write, a.env, p);
    if k in Run(db', run, p).revisions { RevisionCountsChanges(db', run, k, p); }
  }

  lemma {:induction false} RunSplits(db: Db, first: seq<Attempt>, second: seq<Attempt>, p: Printer)
    ensures Run(db, first + second, p) == Run(Run(db, first, p), second, p)
    decreases |first|
  {
    hide Transact;
    if first == [] {
      assert first + second == second;
    } else {
      assert (first + second)[1..] == first[1..] + second && (first + second)[0] == first[0];
      RunSplits(Transact(db, first[0].write, first[0].env, p), first[1..], second, p);
    }
  }

  lemma {:induction false} RunKeepsForm(db: Db, run: seq<Attempt>, p: Printer)
    requires WellFormed(db)
    ensures WellFormed(Run(db, run, p)) && db.issued <= Run(db, run, p).issued
    decreases |run|
  {
    hide Transact, WellFormed;
    if run != [] {
      StepKeepsForm(db, run[0], p);
      RunKeepsForm(Transact(db, run[0].write, run[0].env, p), run[1..], p);
    }
  }

  /** No lost updates: of two attempts that change the same row, the later one expects a strictly
      larger revision.  So an expected revision is good for at most one committed change, replays
      and lost acknowledgements included. */
  lemma NoLostUpdates(db: Db, run: seq<Attempt>, k: RowId, i: nat, j: nat, p: Printer)
    requires WellFormed(db) && i < j < |run|
    requires Hits(Run(db, run[..i], p), run[i], k, p) && Hits(Run(db, run[..j], p), run[j], k, p)
    ensures run[i].write.expected < run[j].write.expected
  {
    hide Lands, Changed;
    var early := Run(db, run[..i], p);
    var late := Run(db, run[..j], p);
    RunKeepsForm(db, run[..i], p);
    RunKeepsForm(db, run[..j], p);
    HitsIssued(early, run[i], k, p);
    StepOnRow(early, run[i], k, p);
    StepKeepsForm(early, run[i], p);
    var between := run[i + 1..j];
    assert run[..j] == run[..i] + ([run[i]] + between);
    RunSplits(db, run[..i], [run[i]] + between, p);
    assert ([run[i]] + between)[1..] == between;
    HitsIssued(late, run[j], k, p);
    StepOnRow(late, run[j], k, p);
    RevisionCountsChanges(Transact(early, run[i].write, run[i].env, p), between, k, p);
  }

  lemma HitsIssued(db: Db, a: Attempt, k: RowId, p: Printer)
    requires WellFormed(db) && Hits(db, a, k, p)
    ensures k in db.issued
  {
    hide Valid, Agree, ApplyCatalogMutation;
  }

  /** Validity, once reached, is never lost; and one committed change reaches it. */
  lemma {:induction false} RunsStayValid(db: Db, run: seq<Attempt>, p: Printer)
    ensures Run(db, run, p) == db || Valid(Run(db, run, p).catalog)
    decreases |run|
  {
    hide Transact, Valid, SameElementsUpToSpelling, ApplyCatalogMutation;
    if run != [] {
      var next := Transact(db, run[0].write, run[0].env, p);
      if next != db { ChangesAreCoherent(db, run[0].write, run[0].env, p); }
      RunsStayValid(next, run[1..], p);
    }
  }
}

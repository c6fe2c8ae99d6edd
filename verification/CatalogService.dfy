/** The catalog service's revision-aware writes: check a private candidate against the snapshot,
    write through the repository, and publish only what the repository reports as committed. */
module CatalogService {
  import opened Text
  import opened Catalog
  import opened Validation
  import opened Mutation
  import opened CoherentWrite
  import opened CatalogRepository

  datatype Published = Published(catalog: ResourceCatalog, version: nat)

  /** The catalog version shared by one process. */
  class CatalogAuthority {
    var catalog: ResourceCatalog
    var version: nat

    constructor (catalog: ResourceCatalog)
      ensures this.catalog == catalog && version == 1
    {
      this.catalog, version := catalog, 1;
    }

    method Current() returns (c: ResourceCatalog, v: nat)
      ensures c == catalog && v == version
    {
      return catalog, version;
    }

    method Publish(next: ResourceCatalog) returns (v: nat)
      modifies this
      ensures catalog == next && version == old(version) + 1 && v == version
    {
      catalog, version := next, version + 1;
      return version;
    }
  }

  // ----- checks made on the snapshot -----

  /** The kinds with a "code" field, the only field the registry canonicalizes and freezes. */
  predicate HasCode(k: Kind) {
    k == KindClass || k == KindFamily || k == KindType || k == KindDefinition || k == KindOptionSet || k == KindOption || k == KindUnit
  }

  function CanonicalizeCodes(r: Record): Record {
    if HasCode(r.kind) && "code" in r.values then
      r.(values := r.values["code" := r.values["code"].(text := Canonical(r.values["code"].text))])
    else r
  }

  /** What the service reads: whether reading the record fails, whether the later reference checks
      fail, whether resources refer to the record, and whether catalog rows depend on it. */
  datatype Lookups = Lookups(fail: bool, checksFail: bool, referenced: bool, dependents: bool)

  /** A lookup through the plain repository; the service keys it by kind and id. */
  function Get(db: Db, id: RowId, look: Lookups): Result<Record> {
    if id.kind.KindOther? then Err(KindUnknown) else if look.fail then Err(Internal) else if id in db.records then Ok(RecordAt(db, id)) else Err(NotFound)
  }

  function CandidateError(snapshot: ResourceCatalog, m: CatalogMutation): Option<Error> {
    var next := ApplyCatalogMutation(snapshot, m);
    if next.Err? then Some(next.error) else if Valid(next.value) then None
    else Some(InvalidCatalog(!ReferencesResolve(next.value), !RulesKept(next.value)))
  }

  /** The old code stands in for the new one when the row is looked up in the snapshot. */
  function Frozen(current: Record, rec: Record): Record {
    if HasCode(rec.kind) && "code" in current.values then rec.(values := rec.values["code" := current.values["code"]]) else rec
  }

  predicate CodeChanged(current: Record, rec: Record) {
    HasCode(rec.kind) && "code" in current.values && "code" in rec.values &&
      current.values["code"].text != rec.values["code"].text
  }

  /** Why a write is turned away before the repository is asked. */
  function Guard(db: Db, snapshot: ResourceCatalog, w: Write, look: Lookups): Option<Error> {
    if w.InsertRow? then CandidateError(snapshot, CatalogMutation(Insert, w.record, None))
    else
      var got := Get(db, Target(w), look);
      if got.Err? then Some(got.error)
      else
        var current := got.value;
        match w
        case UpdateRow(rec, _) =>
          if CodeChanged(current, rec) && look.checksFail then Some(Internal)
          else if CodeChanged(current, rec) && look.referenced then Some(CodeImmutable)
          else CandidateError(snapshot, CatalogMutation(Update, Frozen(current, rec), Some(rec)))
        case SetActiveRow(_, _, _) => CandidateError(snapshot, CatalogMutation(OpOf(w), current, None))
        case DeleteRow(_, _) =>
          if current.active then Some(InvalidLifecycle)
          else if look.checksFail then Some(Internal)
          else if look.dependents || look.referenced then Some(InUse)
          else CandidateError(snapshot, CatalogMutation(Delete, current, None))
  }

  method CheckCandidate(snapshot: ResourceCatalog, m: CatalogMutation) returns (e: Option<Error>)
    ensures e == CandidateError(snapshot, m)
  {
    hide ReferencesResolve, RulesKept, ApplyCatalogMutation;
    var next := ApplyCatalogMutation(snapshot, m);
    if next.Err? { return Some(next.error); }
    var errs := Validate(next.value);
    return if errs == [] then None else Some(InvalidCatalog(Error.Reference in errs, Error.Validation in errs));
  }

  // ----- the service as a state machine -----

  /** Everything the service and its repository hold. */
  datatype World = World(db: Db, snapshot: ResourceCatalog, published: Published, unavailable: bool, configured: bool)

  datatype Call =
    | CreateV2(record: Record)
    | UpdateRevision(record: Record, expected: nat)
    | SetActiveRevision(id: RowId, active: bool, expected: nat)
    | HardDeleteRevision(id: RowId, expected: nat)
    | ResetAvailability

  datatype Weather = Weather(look: Lookups, env: Environment)

  /** What the caller learns. `Unchanged` is the idempotent lifecycle answer. */
  datatype Answer = Written(record: Option<Record>) | Unchanged | Cleared

  predicate MissingArgument(c: Call) {
    match c
    case UpdateRevision(r, expected) => r.id == 0 || expected == 0
    case SetActiveRevision(k, _, expected) => k.id == 0 || expected == 0
    case HardDeleteRevision(k, expected) => k.id == 0 || expected == 0
    case _ => false
  }

  function WriteOf(c: Call): Write
    requires c != ResetAvailability
  {
    match c
    case CreateV2(r) => InsertRow(CanonicalizeCodes(r))
    case UpdateRevision(r, expected) => UpdateRow(CanonicalizeCodes(r), expected)
    case SetActiveRevision(k, active, expected) => SetActiveRow(k, active, expected)
    case HardDeleteRevision(k, expected) => DeleteRow(k, expected)
  }

  /** The record is already in the requested state; the expected revision is not looked at. */
  predicate AlreadySo(db: Db, c: Call, look: Lookups) {
    c.SetActiveRevision? && var got := Get(db, c.id, look); got.Ok? && got.value.active == c.active
  }

  /** Why a call ends before the repository is asked to write. */
  function Turned(w: World, c: Call, look: Lookups): Option<Result<Answer>> {
    hide Valid, ApplyCatalogMutation;
    if c == ResetAvailability then Some(Ok(Cleared))
    else if MissingArgument(c) then Some(Err(InvalidArgument))
    else if w.unavailable then Some(Err(WriterLatched))
    else if !w.configured then Some(Err(Unavailable))
    else if AlreadySo(w.db, c, look) then Some(Ok(Unchanged))
    else
      var e := Guard(w.db, w.snapshot, WriteOf(c), look);
      if e.Some? then Some(Err(e.value)) else None
  }

  function Step(w: World, c: Call, weather: Weather, p: Printer, signals: bool): World {
    hide Transact, Reply, Guard;
    if c == ResetAvailability then w.(unavailable := false)
    else if Turned(w, c, weather.look).Some? then w
    else
      var db := Transact(w.db, WriteOf(c), weather.env, p);
      var r := Reply(w.db, WriteOf(c), weather.env, p, signals);
      if r.Ok? then w.(db := db, snapshot := r.value.catalog, published := Published(r.value.catalog, w.published.version + 1))
      else w.(db := db, unavailable := w.unavailable || r.error == Indeterminate)
  }

  function AnswerOf(w: World, c: Call, weather: Weather, p: Printer, signals: bool): Result<Answer> {
    hide Transact, Reply, Guard;
    var early := Turned(w, c, weather.look);
    if early.Some? then early.value
    else
      var r := Reply(w.db, WriteOf(c), weather.env, p, signals);
      if r.Ok? then Ok(Written(if r.value.record.Some? || c.SetActiveRevision? || c.HardDeleteRevision? then r.value.record else Some(WriteOf(c).record)))
      else if r.error == Indeterminate then Err(WriterLatched)
      else Err(r.error)
  }

  class Service {
    var snapshot: ResourceCatalog
    var unavailable: bool
    var configured: bool
    const authority: CatalogAuthority
    const repo: Repository

    constructor (repo: Repository, authority: CatalogAuthority)
      ensures this.repo == repo && this.authority == authority && snapshot == authority.catalog && !unavailable && !configured
    {
      this.repo, this.authority := repo, authority;
      snapshot, unavailable, configured := authority.catalog, false, false;
    }

    ghost function State(): World
      reads this, authority, repo
    {
      World(repo.db, snapshot, Published(authority.catalog, authority.version), unavailable, configured)
    }

    method Configure()
      modifies this
      ensures State() == old(State()).(configured := true)
    {
      configured := true;
    }

    method ResetCatalogWriterAvailability()
      modifies this
      ensures State() == old(State()).(unavailable := false)
    {
      unavailable := false;
    }

    method PrepareWrite() returns (e: Option<Error>)
      ensures e == if unavailable then Some(WriterLatched) else if !configured then Some(Unavailable) else None
    {
      if unavailable { return Some(WriterLatched); }
      if !configured { return Some(Unavailable); }
      return None;
    }

    method ClassifyWriteError(e: Error) returns (r: Error)
      modifies this
      ensures State() == old(State()).(unavailable := old(unavailable) || e == Indeterminate)
      ensures r == if e == Indeterminate then WriterLatched else e
    {
      if e == Indeterminate {
        unavailable := true;
        return WriterLatched;
      }
      return e;
    }

    method PublishCoherent(next: ResourceCatalog)
      modifies this, authority
      ensures State() == old(State()).(snapshot := next, published := Published(next, old(authority.version) + 1))
    {
      snapshot := next;
      var _ := authority.Publish(next);
    }

    /** The tail every write shares. */
    method WriteAndPublish(w: Write, env: Environment) returns (r: Result<Receipt>)
      requires !unavailable
      modifies this, authority, repo
      ensures var db, reply := Transact(old(repo.db), w, env, repo.printer), Reply(old(repo.db), w, env, repo.printer, repo.signals);
        State() ==
          if reply.Ok? then
            old(State()).(db := db, snapshot := reply.value.catalog, published := Published(reply.value.catalog, old(authority.version) + 1))
          else old(State()).(db := db, unavailable := reply.error == Indeterminate)
      ensures r == var reply := Reply(old(repo.db), w, env, repo.printer, repo.signals);
        if reply.Ok? then reply else if reply.error == Indeterminate then Err(WriterLatched) else reply
    {
      hide Transact, Reply;
      var reply := repo.RunCoherentTx(w, env);
      if reply.Err? {
        var e := ClassifyWriteError(reply.error);
        return Err(e);
      }
      PublishCoherent(reply.value.catalog);
      return reply;
    }

    method Create(record: Record, weather: Weather) returns (r: Result<Answer>)
      modifies this, authority, repo
      ensures State() == Step(old(State()), CreateV2(record), weather, repo.printer, repo.signals)
      ensures r == AnswerOf(old(State()), CreateV2(record), weather, repo.printer, repo.signals)
    {
      hide CandidateError, Transact, Reply;
      var blocked := PrepareWrite();
      if blocked.Some? { return Err(blocked.value); }
      var rec := CanonicalizeCodes(record);
      var bad := CheckCandidate(snapshot, CatalogMutation(Insert, rec, None));
      if bad.Some? { return Err(bad.value); }
      var reply := WriteAndPublish(InsertRow(rec), weather.env);
      if reply.Err? { return Err(reply.error); }
      return Ok(Written(if reply.value.record.Some? then reply.value.record else Some(rec)));
    }

    method BuildUpdateCandidate(rec: Record, look: Lookups, expected: nat) returns (e: Option<Error>)
      ensures e == Guard(repo.db, snapshot, UpdateRow(rec, expected), look)
    {
      hide CandidateError;
      var got := Get(repo.db, RowId(rec.kind, rec.id), look);
      if got.Err? { return Some(got.error); }
      if CodeChanged(got.value, rec) {
        if look.checksFail { return Some(Internal); }
        if look.referenced { return Some(CodeImmutable); }
      }
      e := CheckCandidate(snapshot, CatalogMutation(Update, Frozen(got.value, rec), Some(rec)));
    }

    method UpdateRevision(record: Record, expected: nat, weather: Weather) returns (r: Result<Answer>)
      modifies this, authority, repo
      ensures State() == Step(old(State()), Call.UpdateRevision(record, expected), weather, repo.printer, repo.signals)
      ensures r == AnswerOf(old(State()), Call.UpdateRevision(record, expected), weather, repo.printer, repo.signals)
    {
      hide Guard, Transact, Reply;
      if record.id == 0 || expected == 0 { return Err(InvalidArgument); }
      var rec := CanonicalizeCodes(record);
      var blocked := PrepareWrite();
      if blocked.Some? { return Err(blocked.value); }
      var bad := BuildUpdateCandidate(rec, weather.look, expected);
      if bad.Some? { return Err(bad.value); }
      var reply := WriteAndPublish(UpdateRow(rec, expected), weather.env);
      if reply.Err? { return Err(reply.error); }
      return Ok(Written(if reply.value.record.Some? then reply.value.record else Some(rec)));
    }

    method SetActiveRevision(id: RowId, active: bool, expected: nat, weather: Weather) returns (r: Result<Answer>)
      modifies this, authority, repo
      ensures State() == Step(old(State()), Call.SetActiveRevision(id, active, expected), weather, repo.printer, repo.signals)
      ensures r == AnswerOf(old(State()), Call.SetActiveRevision(id, active, expected), weather, repo.printer, repo.signals)
    {
      hide CandidateError, Transact, Reply;
      if id.id == 0 || expected == 0 { return Err(InvalidArgument); }
      var blocked := PrepareWrite();
      if blocked.Some? { return Err(blocked.value); }
      var got := Get(repo.db, id, weather.look);
      if got.Err? { return Err(got.error); }
      if got.value.active == active { return Ok(Unchanged); }
      var bad := CheckCandidate(snapshot, CatalogMutation(if active then Reactivate else Deactivate, got.value, None));
      if bad.Some? { return Err(bad.value); }
      var reply := WriteAndPublish(SetActiveRow(id, active, expected), weather.env);
      if reply.Err? { return Err(reply.error); }
      return Ok(Written(reply.value.record));
    }

    method BuildDeleteCandidate(id: RowId, look: Lookups, expected: nat) returns (e: Option<Error>)
      ensures e == Guard(repo.db, snapshot, DeleteRow(id, expected), look)
    {
      hide CandidateError;
      var got := Get(repo.db, id, look);
      if got.Err? { return Some(got.error); }
      if got.value.active { return Some(InvalidLifecycle); }
      if look.checksFail { return Some(Internal); }
      if look.dependents || look.referenced { return Some(InUse); }
      e := CheckCandidate(snapshot, CatalogMutation(Delete, got.value, None));
    }

    method HardDeleteRevision(id: RowId, expected: nat, weather: Weather) returns (r: Result<Answer>)
      modifies this, authority, repo
      ensures State() == Step(old(State()), Call.HardDeleteRevision(id, expected), weather, repo.printer, repo.signals)
      ensures r == AnswerOf(old(State()), Call.HardDeleteRevision(id, expected), weather, repo.printer, repo.signals)
    {
      hide Guard, Transact, Reply;
      if id.id == 0 || expected == 0 { return Err(InvalidArgument); }
      var blocked := PrepareWrite();
      if blocked.Some? { return Err(blocked.value); }
      var bad := BuildDeleteCandidate(id, weather.look, expected);
      if bad.Some? { return Err(bad.value); }
      var reply := WriteAndPublish(DeleteRow(id, expected), weather.env);
      if reply.Err? { return Err(reply.error); }
      return Ok(Written(reply.value.record));
    }
  }
}

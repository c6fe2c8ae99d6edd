/** Resource rows under revision checks: lifecycle transitions and full updates. */
module ResourceRows {
  import opened Sorting
  import opened Catalog
  import opened Resource
  import opened ResourceBuild
  import opened ResourceLaws
  import opened Rehydration
  import opened Markers
  import opened CatalogRepository

  /** `key` is the identity a reactivation expects, or empty; `canonical` marks a resource that came
      out of construction. */
  datatype Change =
    | Lifecycle(id: int, active: bool, key: string, expected: nat)
    | Replace(resource: Resource, canonical: bool, expected: nat)

  function IdOf(ch: Change): int { if ch.Lifecycle? then ch.id else ch.resource.id }

  /** What surrounds one transaction: whether the class, family, type, unit and policy concerned are
      active, whether a statement breaks, and how the commit goes. */
  datatype Surroundings = Surroundings(chainActive: bool, broken: bool, commit: Commit)

  // ----- what a transaction does -----

  function Replaced(row: Resource, built: Resource): Resource {
    row.(classCode := built.classCode, familyCode := built.familyCode, typeCode := built.typeCode, naturalUnit := built.naturalUnit,
      attributes := built.attributes, revision := row.revision + 1)
  }

  /** The row the transaction would commit, or why it stops. */
  function Next(rows: map<int, Resource>, ch: Change, env: Surroundings): Result<Resource> {
    if ch.Replace? && !ch.canonical then Err(Reference)
    else if ch.expected == 0 then Err(RevisionRequired)
    else if IdOf(ch) !in rows then Err(NotFound)
    else
      var row := rows[IdOf(ch)];
      if ch.Lifecycle? && ch.key != "" && ch.key != row.identityKey then Err(Integrity)
      else if row.revision != ch.expected then Err(RevisionConflict)
      else if ch.Lifecycle? && row.active == ch.active then Ok(row)
      else if (ch.Replace? || ch.active) && !env.chainActive then Err(Reference)
      else if env.broken then Err(Internal)
      else Ok(if ch.Lifecycle? then row.(active := ch.active, revision := row.revision + 1) else Replaced(row, ch.resource))
  }

  function After(rows: map<int, Resource>, ch: Change, env: Surroundings): map<int, Resource> {
    var next := Next(rows, ch, env);
    if next.Ok? && env.commit != Lost(false) then rows[IdOf(ch) := next.value] else rows
  }

  function Answer(rows: map<int, Resource>, ch: Change, env: Surroundings): Result<Resource> {
    var next := Next(rows, ch, env);
    if next.Ok? && env.commit.Lost? then Err(Internal) else next
  }

  class ResourceTable {
    var rows: map<int, Resource>

    method SetLifecycleRevision(id: int, active: bool, key: string, expected: nat, env: Surroundings) returns (r: Result<Resource>)
      modifies this
      ensures rows == After(old(rows), Lifecycle(id, active, key, expected), env)
      ensures r == Answer(old(rows), Lifecycle(id, active, key, expected), env)
    {
      if expected == 0 { return Err(RevisionRequired); }
      if id !in rows { return Err(NotFound); }
      var row := rows[id];
      if key != "" && key != row.identityKey { return Err(Integrity); }
      if row.revision != expected { return Err(RevisionConflict); }
      if row.active == active {
        if env.commit.Lost? { return Err(Internal); }
        return Ok(row);
      }
      if active && !env.chainActive { return Err(Reference); }
      if env.broken { return Err(Internal); }
      var next := row.(active := active, revision := row.revision + 1);
      if env.commit != Lost(false) { rows := rows[id := next]; }
      if env.commit.Lost? { return Err(Internal); }
      return Ok(next);
    }

    /** The attribute values are cleared and written one by one. */
    method UpdateRevision(resource: Resource, canonical: bool, expected: nat, env: Surroundings) returns (r: Result<Resource>)
      modifies this
      ensures rows == After(old(rows), Replace(resource, canonical, expected), env)
      ensures r == Answer(old(rows), Replace(resource, canonical, expected), env)
    {
      if !canonical { return Err(Reference); }
      if expected == 0 { return Err(RevisionRequired); }
      if resource.id !in rows { return Err(NotFound); }
      var row := rows[resource.id];
      if row.revision != expected { return Err(RevisionConflict); }
      if !env.chainActive { return Err(Reference); }
      var next := row.(classCode := resource.classCode, familyCode := resource.familyCode, typeCode := resource.typeCode,
        naturalUnit := resource.naturalUnit, revision := row.revision + 1, attributes := []);
      for i := 0 to |resource.attributes|
        invariant next == Replaced(row, resource).(attributes := resource.attributes[..i])
      {
        next := next.(attributes := next.attributes + [resource.attributes[i]]);
      }
      assert resource.attributes[..|resource.attributes|] == resource.attributes;
      if env.broken || |next.attributes| != |resource.attributes| { return Err(Internal); }
      if env.commit != Lost(false) { rows := rows[resource.id := next]; }
      if env.commit.Lost? { return Err(Internal); }
      return Ok(next);
    }

    /** The service's reactivation: an active resource is answered as it is, whatever revision was
        expected; otherwise it is rebuilt under the current catalog and must reproduce its key. */
    method ReactivateRevision(c: ResourceCatalog, id: int, expected: nat, env: Surroundings) returns (r: Result<Resource>)
      modifies this
      ensures id <= 0 || expected == 0 ==> r == Err(InvalidArgument) && rows == old(rows)
      ensures id > 0 && expected > 0 && id !in old(rows) ==> r == Err(NotFound) && rows == old(rows)
      ensures id > 0 && expected > 0 && id in old(rows) ==>
        var row := old(rows)[id];
        if row.active then r == Ok(row) && rows == old(rows)
        else if Rebuilds(c, row) then
          rows == After(old(rows), Lifecycle(id, true, row.identityKey, expected), env) &&
          r == Reported(Answer(old(rows), Lifecycle(id, true, row.identityKey, expected), env))
        else
          r == Err(if Reconstructs(c, row) then IdentityConflict else ReactivationImpossible) && rows == old(rows)
    {
      hide Outcome, Filter;
      if id <= 0 || expected == 0 { return Err(InvalidArgument); }
      if id !in rows { return Err(NotFound); }
      var row := rows[id];
      if row.active { return Ok(row); }
      var candidate := ReactivationCandidate(c, row);
      if candidate.Err? { return Err(candidate.error); }
      var moved := SetLifecycleRevision(id, true, candidate.value.identityKey, expected, env);
      return Reported(moved);
    }
  }

  /** How the service reports what the table answers to a reactivation. */
  function Reported(r: Result<Resource>): Result<Resource> {
    if r.Ok? then r
    else Err(match r.error
      case RevisionConflict => RevisionConflict
      case NotFound => NotFound
      case Integrity => IdentityConflict
      case Reference => ReactivationImpossible
      case _ => Internal)
  }

  /** The row's values still build a resource. */
  ghost predicate Reconstructs(c: ResourceCatalog, row: Resource) {
    Outcome(c, ScopeOf(row), row.naturalUnit, Filter(row.attributes, Applicable), true).Ok?
  }

  /** And it has the stored key. */
  ghost predicate Rebuilds(c: ResourceCatalog, row: Resource) {
    var built := Outcome(c, ScopeOf(row), row.naturalUnit, Filter(row.attributes, Applicable), true);
    built.Ok? && built.value.identityKey == row.identityKey
  }

  // ----- laws -----

  datatype Attempt = Attempt(change: Change, env: Surroundings)

  function Run(rows: map<int, Resource>, run: seq<Attempt>): map<int, Resource>
    decreases |run|
  {
    if run == [] then rows else Run(After(rows, run[0].change, run[0].env), run[1..])
  }

  /** The attempt commits a change to this row. */
  predicate Hits(rows: map<int, Resource>, a: Attempt, id: int) {
    IdOf(a.change) == id && After(rows, a.change, a.env) != rows
  }

  function Count(rows: map<int, Resource>, run: seq<Attempt>, id: int): nat
    decreases |run|
  {
    if run == [] then 0
    else
      var here := if Hits(rows, run[0], id) then 1 else 0;
      here + Count(After(rows, run[0].change, run[0].env), run[1..], id)
  }

  /** One attempt: a row is never removed, keeps its identity key, and advances by one exactly when
      the attempt changes it, which needs its current revision. */
  lemma OneAttempt(rows: map<int, Resource>, a: Attempt, id: int)
    requires id in rows
    ensures var rows' := After(rows, a.change, a.env);
      && rows'.Keys == rows.Keys && rows'[id].identityKey == rows[id].identityKey
      && rows'[id].revision == rows[id].revision + (if Hits(rows, a, id) then 1 else 0)
      && (Hits(rows, a, id) ==> rows[id].revision == a.change.expected)
      && (!Hits(rows, a, id) ==> rows'[id] == rows[id])
  {
    var rows' := After(rows, a.change, a.env);
    if IdOf(a.change) in rows && Next(rows, a.change, a.env) == Ok(rows[IdOf(a.change)]) {
      assert rows' == rows;
    }
  }

  /** A completed lifecycle call reports a new revision exactly when it changed the row. */
  lemma NewRevisionMeansChange(rows: map<int, Resource>, ch: Change, env: Surroundings)
    requires Answer(rows, ch, env).Ok?
    ensures Answer(rows, ch, env).value.revision != ch.expected <==> After(rows, ch, env) != rows
    ensures ch.Lifecycle? ==> (After(rows, ch, env) != rows <==> rows[IdOf(ch)].active != ch.active)
  {
    var next := Next(rows, ch, env).value;
    if next == rows[IdOf(ch)] {
      assert After(rows, ch, env) == rows;
    } else {
      assert After(rows, ch, env)[IdOf(ch)] != rows[IdOf(ch)];
    }
  }

  /** Refused, with nothing changed. */
  predicate Refuses(rows: map<int, Resource>, ch: Change, env: Surroundings, e: Error) {
    Answer(rows, ch, env) == Err(e) && After(rows, ch, env) == rows
  }

  /** What stops a change, in the order in which it is noticed: an unbuilt resource, no expected revision, no
      row, another identity, a stale revision, an inactive chain under a reactivation or replacement, a
      broken statement.  A lifecycle call for the state a row is in passes before the chain is looked at. */
  lemma ChangeRefusals(rows: map<int, Resource>, ch: Change, env: Surroundings)
    ensures ch.Replace? && !ch.canonical ==> Refuses(rows, ch, env, Reference)
    ensures !(ch.Replace? && !ch.canonical) && ch.expected == 0 ==> Refuses(rows, ch, env, RevisionRequired)
    ensures !(ch.Replace? && !ch.canonical) && ch.expected > 0 && IdOf(ch) !in rows ==> Refuses(rows, ch, env, NotFound)
    ensures !(ch.Replace? && !ch.canonical) && ch.expected > 0 && IdOf(ch) in rows ==>
      var row := rows[IdOf(ch)];
      var other := ch.Lifecycle? && ch.key != "" && ch.key != row.identityKey;
      var stale := row.revision != ch.expected;
      var moves := ch.Replace? || row.active != ch.active;
      && (other ==> Refuses(rows, ch, env, Integrity))
      && (!other && stale ==> Refuses(rows, ch, env, RevisionConflict))
      && (!other && !stale && moves && (ch.Replace? || ch.active) && !env.chainActive ==> Refuses(rows, ch, env, Reference))
      && (!other && !stale && moves && (env.chainActive || (ch.Lifecycle? && !ch.active)) && env.broken ==> Refuses(rows, ch, env, Internal))
      && (!other && !stale && !moves ==> After(rows, ch, env) == rows && (env.commit == Acknowledged ==> Answer(rows, ch, env) == Ok(row)))
  {
    if IdOf(ch) in rows { assert rows[IdOf(ch) := rows[IdOf(ch)]] == rows; }
  }

  /** Id and key stay and the revision rises by one; a lifecycle change turns the activity and nothing else,
      a replacement takes over scope, unit and attributes and nothing else. */
  predicate Became(ch: Change, row: Resource, next: Resource) {
    && next.id == row.id && next.identityKey == row.identityKey && next.revision == row.revision + 1
    && match ch
       case Lifecycle(_, active, _, _) =>
         next.active == active && next.attributes == row.attributes && next.naturalUnit == row.naturalUnit && ScopeOf(next) == ScopeOf(row)
       case Replace(by_, _, _) =>
         next.active == row.active && next.attributes == by_.attributes && next.naturalUnit == by_.naturalUnit && ScopeOf(next) == ScopeOf(by_)
  }

  /** What an unhindered change makes of its row, field by field. */
  lemma ChangedRow(rows: map<int, Resource>, ch: Change, env: Surroundings)
    requires ch.Replace? ==> ch.canonical
    requires ch.expected > 0 && IdOf(ch) in rows && rows[IdOf(ch)].revision == ch.expected && !env.broken
    requires ch.Lifecycle? ==> (ch.key == "" || ch.key == rows[IdOf(ch)].identityKey) && rows[IdOf(ch)].active != ch.active
    requires ch.Replace? || ch.active ==> env.chainActive
    ensures var row, rows' := rows[IdOf(ch)], After(rows, ch, env);
      && (env.commit == Lost(false) ==> rows' == rows)
      && (env.commit != Lost(false) ==> rows' == rows[IdOf(ch) := rows'[IdOf(ch)]] && Became(ch, row, rows'[IdOf(ch)]))
      && (env.commit == Acknowledged ==> Answer(rows, ch, env) == Ok(rows'[IdOf(ch)]))
      && (env.commit.Lost? ==> Answer(rows, ch, env) == Err(Internal))
  {}

  /** How a reactivation's refusals are reported. */
  lemma ReportedErrors(e: Error)
    ensures Reported(Err(e)) ==
      Err(if e == Integrity then IdentityConflict else if e == Reference then ReactivationImpossible else if e == RevisionConflict || e == NotFound then e else Internal)
  {}

  /** Over any run a row's revision grows by exactly the number of committed changes to it; its key
      never changes. */
  lemma {:induction false} RowRevisionCounts(rows: map<int, Resource>, run: seq<Attempt>, id: int)
    requires id in rows
    ensures id in Run(rows, run) && Run(rows, run)[id].identityKey == rows[id].identityKey
    ensures Run(rows, run)[id].revision == rows[id].revision + Count(rows, run, id)
    decreases |run|
  {
    hide Hits, After;
    if run != [] {
      OneAttempt(rows, run[0], id);
      RowRevisionCounts(After(rows, run[0].change, run[0].env), run[1..], id);
    }
  }

  lemma {:induction false} RunSplits(rows: map<int, Resource>, first: seq<Attempt>, second: seq<Attempt>)
    ensures Run(rows, first + second) == Run(Run(rows, first), second)
    decreases |first|
  {
    hide After;
    if first == [] {
      assert first + second == second;
    } else {
      assert (first + second)[1..] == first[1..] + second && (first + second)[0] == first[0];
      RunSplits(After(rows, first[0].change, first[0].env), first[1..], second);
    }
  }

  /** Of two attempts that change a row, the later one expects a larger revision. */
  lemma NoLostRowUpdates(rows: map<int, Resource>, run: seq<Attempt>, id: int, i: nat, j: nat)
    requires id in rows && i < j < |run|
    requires Hits(Run(rows, run[..i]), run[i], id) && Hits(Run(rows, run[..j]), run[j], id)
    ensures run[i].change.expected < run[j].change.expected
  {
    hide Hits, After;
    var early, late, between := Run(rows, run[..i]), Run(rows, run[..j]), run[i + 1..j];
    RowRevisionCounts(rows, run[..i], id);
    RowRevisionCounts(rows, run[..j], id);
    OneAttempt(early, run[i], id);
    OneAttempt(late, run[j], id);
    assert run[..j] == run[..i] + ([run[i]] + between);
    RunSplits(rows, run[..i], [run[i]] + between);
    assert ([run[i]] + between)[1..] == between;
    RowRevisionCounts(After(early, run[i].change, run[i].env), between, id);
  }

  predicate OnlyLifecycle(run: seq<Attempt>) { forall a :: a in run ==> a.change.Lifecycle? }

  /** Lifecycle changes alternate: the active flag is the initial one turned over once per committed
      change. */
  lemma {:induction false} LifecycleAlternates(rows: map<int, Resource>, run: seq<Attempt>, id: int)
    requires id in rows && OnlyLifecycle(run)
    ensures id in Run(rows, run)
    ensures Run(rows, run)[id].active == (rows[id].active == (Count(rows, run, id) % 2 == 0))
    decreases |run|
  {
    if run != [] {
      OneAttempt(rows, run[0], id);
      if Hits(rows, run[0], id) { Turnover(rows, run[0], id); }
      hide Hits, After;
      LifecycleAlternates(After(rows, run[0].change, run[0].env), run[1..], id);
    }
  }

  lemma Turnover(rows: map<int, Resource>, a: Attempt, id: int)
    requires id in rows && a.change.Lifecycle? && Hits(rows, a, id)
    ensures id in After(rows, a.change, a.env) && After(rows, a.change, a.env)[id].active == !rows[id].active
  {
    assert rows[id := rows[id]] == rows;
  }

  /** An update never rewrites the stored key, so a row that was updated to a newly built resource can
      be reactivated under the same catalog exactly when what is left without its marker-like values
      meets its modes and has the stored key. */
  lemma UpdatedRowRebuildsIff(c: ResourceCatalog, scope: ResourceScope, unit: string, values: seq<AttributeValue>, row: Resource)
    requires Accepts(c, scope, unit, values, true)
    ensures var bound := Bindings(c.attributes, CanonicalScope(scope));
      Rebuilds(c, Replaced(row, Built(c, scope, unit, values))) <==>
        ModesHold(bound, Unmarked(ByCode(c, bound, values))) && KeyWithoutMarkers(c, scope, values) == row.identityKey
  {
    RestRebuilds(c, scope, unit, values, true, true);
    hide Accepts, Built, Outcome, Filter, ModesHold, Unmarked, KeyWithoutMarkers, ValuesFit, ByCode, Bindings, CanonicalScope;
    var built := Built(c, scope, unit, values);
    assert ScopeOf(Replaced(row, built)) == ScopeOf(built);
  }
}

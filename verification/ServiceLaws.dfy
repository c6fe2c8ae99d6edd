/** What the catalog service keeps over whole runs of single-writer calls. */
module ServiceLaws {
  import opened Catalog
  import opened Validation
  import opened Mutation
  import opened Equivalence
  import opened CoherentWrite
  import opened CatalogRepository
  import opened RepositoryLaws
  import opened CatalogService

  datatype Request = Request(call: Call, weather: Weather)

  function RunCalls(w: World, run: seq<Request>, p: Printer, signals: bool): World
    decreases |run|
  {
    hide Step;
    if run == [] then w else RunCalls(Step(w, run[0].call, run[0].weather, p, signals), run[1..], p, signals)
  }

  predicate Writes(w: World, q: Request, p: Printer, signals: bool) {
    hide Transact, Reply, Guard;
    var r := AnswerOf(w, q.call, q.weather, p, signals);
    r.Ok? && r.value.Written?
  }

  /** How many calls of the run were answered with a completed write. */
  function WriteCount(w: World, run: seq<Request>, p: Printer, signals: bool): nat
    decreases |run|
  {
    hide Step, Writes;
    if run == [] then 0
    else
      var here := if Writes(w, run[0], p, signals) then 1 else 0;
      here + WriteCount(Step(w, run[0].call, run[0].weather, p, signals), run[1..], p, signals)
  }

  /** The repository's committed catalog is the one the service works from. */
  predicate InStep(w: World) { w.db.catalog == w.snapshot }

  predicate SnapshotIsPublished(w: World) { w.snapshot == w.published.catalog }

  // ----- one call -----

  /** A completed write publishes the committed, valid catalog as the next version, however far the
      snapshot had drifted before; no other call touches snapshot or publication. */
  lemma OneCall(w: World, q: Request, p: Printer, signals: bool)
    ensures var w' := Step(w, q.call, q.weather, p, signals);
      if Writes(w, q, p, signals) then
        && InStep(w') && SnapshotIsPublished(w') && w'.published.version == w.published.version + 1
        && Valid(w'.snapshot) && w'.db != w.db
      else w'.snapshot == w.snapshot && w'.published == w.published
  {
    hide Guard, Valid, Transact, Reply, ApplyCatalogMutation, SameElementsUpToSpelling, Lands;
    if Writes(w, q, p, signals) {
      var write := WriteOf(q.call);
      RepliesAreHonest(w.db, write, q.weather.env, p, signals);
      ChangesAreCoherent(w.db, write, q.weather.env, p);
    }
  }

  /** The acknowledgement of a committed write was lost. */
  predicate LostAfterCommit(w: World, q: Request, p: Printer) {
    hide Lands, Guard;
    && q.call != ResetAvailability && Turned(w, q.call, q.weather.look).None?
    && Lands(w.db, WriteOf(q.call), q.weather.env, p) && q.weather.env.commit == Lost(true)
  }

  /** A call that is not answered with a completed write leaves the database as it was, unless its
      acknowledgement was lost. */
  lemma FailedCallsLeaveDatabase(w: World, q: Request, p: Printer, signals: bool)
    requires !Writes(w, q, p, signals) && !LostAfterCommit(w, q, p)
    ensures Step(w, q.call, q.weather, p, signals).db == w.db
  {
    hide Guard, Transact, Reply, Lands;
    if q.call != ResetAvailability && Turned(w, q.call, q.weather.look).None? {
      RepliesAreHonest(w.db, WriteOf(q.call), q.weather.env, p, signals);
    }
  }

  /** From an in-step state, a call leaves the service out of step exactly when the acknowledgement
      of a commit that changed the catalog is lost. */
  lemma DriftsExactlyWhen(w: World, q: Request, p: Printer, signals: bool)
    requires InStep(w)
    ensures !InStep(Step(w, q.call, q.weather, p, signals)) <==>
      LostAfterCommit(w, q, p) && q.weather.env.physical.catalog != w.db.catalog
  {
    hide Guard, Valid, Agree, ApplyCatalogMutation;
    OneCall(w, q, p, signals);
    if !Writes(w, q, p, signals) && !LostAfterCommit(w, q, p) {
      FailedCallsLeaveDatabase(w, q, p, signals);
    }
  }

  /** A repository that signals a lost acknowledgement latches the writer. */
  lemma LossLatches(w: World, q: Request, p: Printer)
    requires LostAfterCommit(w, q, p)
    ensures Step(w, q.call, q.weather, p, true).unavailable
    ensures Step(w, q.call, q.weather, p, false).unavailable == w.unavailable
  {
    hide Guard, Valid, Agree, ApplyCatalogMutation;
  }

  // ----- runs -----

  /** Over any run, snapshot and authority stay equal and the version advances by exactly the number
      of completed writes. */
  lemma {:induction false} SnapshotIsAlwaysPublished(w: World, run: seq<Request>, p: Printer, signals: bool)
    requires SnapshotIsPublished(w)
    ensures SnapshotIsPublished(RunCalls(w, run, p, signals))
    ensures RunCalls(w, run, p, signals).published.version == w.published.version + WriteCount(w, run, p, signals)
    decreases |run|
  {
    hide Step, Valid, Writes;
    if run != [] {
      OneCall(w, run[0], p, signals);
      SnapshotIsAlwaysPublished(Step(w, run[0].call, run[0].weather, p, signals), run[1..], p, signals);
    }
  }

  /** Everything published after start-up is valid. */
  lemma {:induction false} PublishedIsValid(w: World, run: seq<Request>, p: Printer, signals: bool)
    requires SnapshotIsPublished(w)
    ensures RunCalls(w, run, p, signals).published == w.published || Valid(RunCalls(w, run, p, signals).published.catalog)
    decreases |run|
  {
    hide Step, Valid, Writes;
    if run != [] {
      OneCall(w, run[0], p, signals);
      PublishedIsValid(Step(w, run[0].call, run[0].weather, p, signals), run[1..], p, signals);
    }
  }

  /** The availability latch is cleared only once the snapshot matches the database again. */
  predicate CarefulResets(w: World, run: seq<Request>, p: Printer)
    decreases |run|
  {
    hide Step;
    run != [] ==>
      && (run[0].call == ResetAvailability ==> InStep(w))
      && CarefulResets(Step(w, run[0].call, run[0].weather, p, true), run[1..], p)
  }

  lemma StepKeepsSafety(w: World, q: Request, p: Printer)
    requires w.unavailable || InStep(w)
    requires q.call == ResetAvailability ==> InStep(w)
    ensures var w' := Step(w, q.call, q.weather, p, true); w'.unavailable || InStep(w')
  {
    hide Guard, Valid, Transact, Reply, Lands;
    if w.unavailable {
      if q.call != ResetAvailability { LatchedCall(w, q, p, true); }
    } else {
      DriftsExactlyWhen(w, q, p, true);
      if LostAfterCommit(w, q, p) { LossLatches(w, q, p); }
    }
  }

  lemma LatchedCall(w: World, q: Request, p: Printer, signals: bool)
    requires w.unavailable && q.call != ResetAvailability
    ensures Step(w, q.call, q.weather, p, signals) == w
    ensures AnswerOf(w, q.call, q.weather, p, signals).Err?
  {
    hide Guard, Transact, Reply;
  }

  /** With a signalling repository the service is, at every point of every run, either latched or
      working from exactly the committed catalog. */
  lemma {:induction false} LatchedOrInStep(w: World, run: seq<Request>, p: Printer)
    requires (w.unavailable || InStep(w)) && CarefulResets(w, run, p)
    ensures var w' := RunCalls(w, run, p, true); w'.unavailable || InStep(w')
    decreases |run|
  {
    hide Step;
    if run != [] {
      StepKeepsSafety(w, run[0], p);
      LatchedOrInStep(Step(w, run[0].call, run[0].weather, p, true), run[1..], p);
    }
  }

  predicate NoReset(run: seq<Request>) { forall q :: q in run ==> q.call != ResetAvailability }

  /** Once latched, nothing is written or published until a reset. */
  lemma {:induction false} LatchedIsInert(w: World, run: seq<Request>, p: Printer, signals: bool)
    requires w.unavailable && NoReset(run)
    ensures RunCalls(w, run, p, signals) == w
    decreases |run|
  {
    hide Step, AnswerOf;
    if run != [] {
      LatchedCall(w, run[0], p, signals);
      LatchedIsInert(w, run[1..], p, signals);
    }
  }

  /** In every catalog published after start-up an active type sits in exactly one family row, which is
      active, and that in exactly one class row, which is active, unless its class code is blank and
      shared. */
  lemma PublishedHierarchyIsActive(w: World, run: seq<Request>, p: Printer, signals: bool, t: ResourceType)
    requires SnapshotIsPublished(w)
    requires var w' := RunCalls(w, run, p, signals);
      w'.published != w.published && t in w'.published.catalog.types && t.active
    ensures var c := RunCalls(w, run, p, signals).published.catalog;
      && (exists i :: SoleActiveFamily(c.families, t.classCode, t.familyCode, i))
      && ((exists i :: SoleActiveClass(c.classes, Text.Canonical(t.classCode), i)) <==> Text.Canonical(t.classCode) != "" || !BlankTwice(c.classes))
  {
    hide Valid, RunCalls, SoleActiveFamily, SoleActiveClass, Text.Canonical, BlankTwice;
    PublishedIsValid(w, run, p, signals);
    ActiveTypesHaveActiveParents(RunCalls(w, run, p, signals).published.catalog, t);
  }

  // ----- in step or not, whatever the repository signals -----

  lemma {:induction false} RunExtends(w: World, run: seq<Request>, q: Request, p: Printer, signals: bool)
    ensures RunCalls(w, run + [q], p, signals) == Step(RunCalls(w, run, p, signals), q.call, q.weather, p, signals)
    decreases |run|
  {
    hide Step;
    if run == [] {
      assert [] + [q] == [q];
      assert RunCalls(Step(w, q.call, q.weather, p, signals), [q][1..], p, signals) == Step(w, q.call, q.weather, p, signals);
    } else {
      assert (run + [q])[0] == run[0] && (run + [q])[1..] == run[1..] + [q];
      RunExtends(Step(w, run[0].call, run[0].weather, p, signals), run[1..], q, p, signals);
    }
  }

  /** The last call of the run that changed the database. */
  function LastChange(w: World, run: seq<Request>, p: Printer, signals: bool): (i: Option<nat>)
    ensures i.Some? ==> i.value < |run|
  {
    hide Step, RunCalls;
    if run == [] then None
    else
      var n := |run| - 1;
      var before := RunCalls(w, run[..n], p, signals);
      if Step(before, run[n].call, run[n].weather, p, signals).db != before.db then Some(n) else LastChange(w, run[..n], p, signals)
  }

  /** A change that is not a completed write is a lost commit: the database holds what the statements
      left behind, and the service still holds what it held. */
  lemma UnansweredChange(w: World, q: Request, p: Printer, signals: bool)
    requires !Writes(w, q, p, signals) && Step(w, q.call, q.weather, p, signals).db != w.db
    ensures var w' := Step(w, q.call, q.weather, p, signals);
      q.weather.env.physical.Performed? && w'.db.catalog == q.weather.env.physical.catalog && w'.snapshot == w.snapshot
  {
    hide Guard, Transact, Reply;
    ChangeIsPhysical(w.db, WriteOf(q.call), q.weather.env, p);
  }

  /** The call brings the database to the catalog the service holds. */
  predicate Restores(w: World, q: Request, p: Printer, signals: bool) {
    Writes(w, q, p, signals) || (q.weather.env.physical.Performed? && q.weather.env.physical.catalog == w.snapshot)
  }

  /** Whether or not the repository signals lost acknowledgements, and whatever resets occur: a service
      that starts in step ends in step exactly when the last call that changed the database was a
      completed write or left the very catalog the service holds, or no call changed it. */
  lemma {:induction false} InStepIff(w: World, run: seq<Request>, p: Printer, signals: bool)
    requires InStep(w)
    ensures InStep(RunCalls(w, run, p, signals)) <==>
      var i := LastChange(w, run, p, signals);
      i.None? || Restores(RunCalls(w, run[..i.value], p, signals), run[i.value], p, signals)
  {
    hide Step, Writes;
    if run != [] {
      var n := |run| - 1;
      var before, q := RunCalls(w, run[..n], p, signals), run[n];
      InStepIff(w, run[..n], p, signals);
      assert run == run[..n] + [q];
      RunExtends(w, run[..n], q, p, signals);
      hide RunCalls, Valid;
      OneCall(before, q, p, signals);
      if Step(before, q.call, q.weather, p, signals).db != before.db {
        if !Writes(before, q, p, signals) { UnansweredChange(before, q, p, signals); }
      } else {
        var i := LastChange(w, run[..n], p, signals);
        if i.Some? { assert run[..n][..i.value] == run[..i.value]; }
      }
    }
  }

  // ----- where the promise fails -----

  /** An empty catalog, and a request to create an option set whose acknowledgement is lost after
      the commit. */
  function Empty(): ResourceCatalog { ResourceCatalog([], [], [], [], [], [], [], [], [], [], []) }

  function Start(): World {
    World(Db(Empty(), map[], map[], {}), Empty(), Published(Empty(), 1), false, true)
  }

  function Plain(text: string): FieldValue { FieldValue(text, false, 0, [], "", None) }

  function NewSet(): Record {
    Record(KindOptionSet, 0, 0, true, map["code" := Plain("S"), "name" := Plain("Sizes")], Some([]))
  }

  function WithSet(): ResourceCatalog { Empty().(optionSets := [ResourceOptionSet("S", "Sizes", true)]) }

  function LostCreate(): Request {
    Request(CreateV2(NewSet()), Weather(Lookups(false, false, false, false), Environment(NoFault, Performed(1, WithSet(), map[]), Lost(true))))
  }

  function Reset(): Request { LostCreate().(call := ResetAvailability) }

  lemma WithSetIsPredicted()
    ensures ApplyCatalogMutation(Empty(), CatalogMutation(Insert, NewSet(), None)) == Ok(WithSet())
  {
    var r, none := NewSet(), Empty().optionSets;
    assert OptionSetFrom(r) == ResourceOptionSet("S", "Sizes", true);
    assert Mutated(none, Insert, OptionSetMatcher(r), OptionSetFrom(r), OptionSetWithActive) == Ok(none + [OptionSetFrom(r)]);
    assert none + [OptionSetFrom(r)] == WithSet().optionSets;
    assert r.kind == KindOptionSet;
  }

  lemma WithSetIsValid()
    ensures Valid(WithSet())
  {}

  lemma LostCreateIsLost(p: Printer)
    ensures LostAfterCommit(Start(), LostCreate(), p)
  {
    WithSetIsPredicted();
    WithSetIsValid();
    hide Valid, ApplyCatalogMutation, EquivalentResourceCatalogs, SortedByContent;
    var c := CanonicalOrder(WithSet(), p);
    EquivalenceRelation(c, c, c);
    Text.CapitalLetter('S');
    assert CanonicalizeCodes(NewSet()).values == NewSet().values;
  }

  /** A repository that does not signal the loss leaves the service available and out of step.  One
      that does latches it, and clearing the latch without reloading the snapshot has the same
      effect. */
  lemma LossWithoutLatchDrifts(p: Printer)
    ensures var w := RunCalls(Start(), [LostCreate()], p, false); !w.unavailable && !InStep(w)
    ensures RunCalls(Start(), [LostCreate()], p, true).unavailable
    ensures var w := RunCalls(Start(), [LostCreate(), Reset()], p, true); !w.unavailable && !InStep(w)
  {
    hide Step, LostAfterCommit;
    var w, q := Start(), LostCreate();
    LostCreateIsLost(p);
    DriftsExactlyWhen(w, q, p, true);
    DriftsExactlyWhen(w, q, p, false);
    LossLatches(w, q, p);
    var silent, latched := Step(w, q.call, q.weather, p, false), Step(w, q.call, q.weather, p, true);
    assert RunCalls(w, [q], p, false) == RunCalls(silent, [], p, false);
    assert RunCalls(w, [q], p, true) == RunCalls(latched, [], p, true);
    assert [q, Reset()][1..] == [Reset()];
    ResetOnly(latched, p);
  }

  lemma ResetOnly(w: World, p: Printer)
    ensures RunCalls(w, [Reset()], p, true) == w.(unavailable := false)
  {
    hide Guard, Transact, Reply;
    var w' := Step(w, Reset().call, Reset().weather, p, true);
    assert RunCalls(w, [Reset()], p, true) == RunCalls(w', [], p, true);
  }
}

/** The resolution override of a purchase line: a revisioned decision with an append-only audit. */
module PurchaseResolution {
  import opened Text

  /** The effective statuses; the last case holds every other string. */
  datatype LinkStatus = NoOverride | Pending | Linked | Suspended | NotApplicable | Conflict | OtherStatus(text: string)

  datatype Cause = NoCause | LineNotApplicable | LineConflictOverride | IdentityConflict | ResourceInactive | Unresolved

  /** `at` is absent for the zero time. */
  datatype Moment = ZeroTime | At(instant: int)

  datatype Decision = Decision(actor: string, origin: string, reason: string, at: Moment)

  datatype Entry = Entry(
    lineId: int, previous: LinkStatus, next: LinkStatus, previousRevision: nat, newRevision: nat, decision: Decision)

  datatype Failure = InvalidOverride | InvalidMetadata | StaleRevision

  datatype Outcome = Rejected(failure: Failure) | Unchanged | Changed(audit: Entry)

  const MANUAL := "manual"

  predicate ValidOverride(s: LinkStatus) { s == NoOverride || s == NotApplicable || s == Conflict }

  predicate ValidDecision(d: Decision) {
    !Blank(d.actor) && !Blank(d.reason) && d.origin == MANUAL && d.at != ZeroTime
  }

  // ----- the line -----

  datatype Line = Line(id: int, override_: LinkStatus, revision: nat)

  datatype Command = Command(override_: LinkStatus, expected: nat, decision: Decision)

  predicate Admissible(line: Line, c: Command) {
    ValidOverride(c.override_) && ValidDecision(c.decision) && line.revision == c.expected
  }

  /** The line after a decision: only an admissible new value moves it, and by one revision. */
  function After(line: Line, c: Command): Line {
    if Admissible(line, c) && line.override_ != c.override_ then Line(line.id, c.override_, line.revision + 1) else line
  }

  /** Why a command that is not admissible is turned away. */
  function FailureOf(c: Command): Failure {
    if !ValidOverride(c.override_) then InvalidOverride else if !ValidDecision(c.decision) then InvalidMetadata else StaleRevision
  }

  function EntryOf(line: Line, c: Command): Entry {
    Entry(line.id, line.override_, c.override_, line.revision, line.revision + 1, c.decision)
  }

  class PurchaseLine {
    const id: int
    var resolutionOverride: LinkStatus
    var resolutionRevision: nat

    constructor (id: int, override_: LinkStatus, revision: nat)
      ensures Value() == Line(id, override_, revision)
    {
      this.id := id;
      resolutionOverride, resolutionRevision := override_, revision;
    }

    function Value(): Line
      reads this
    {
      Line(id, resolutionOverride, resolutionRevision)
    }

    method ChangeResolutionOverride(c: Command) returns (r: Outcome)
      modifies this
      ensures Value() == After(old(Value()), c)
      ensures r.Rejected? <==> !Admissible(old(Value()), c)
      ensures r.Changed? <==> Value() != old(Value())
      ensures r.Changed? ==> r.audit == EntryOf(old(Value()), c)
      ensures r.Rejected? ==> r.failure == FailureOf(c)
    {
      if !ValidOverride(c.override_) { return Rejected(InvalidOverride); }
      var metadata := !Blank(c.decision.actor) && !Blank(c.decision.reason) && c.decision.origin == MANUAL && c.decision.at != ZeroTime;
      if !metadata { return Rejected(InvalidMetadata); }
      if resolutionRevision != c.expected { return Rejected(StaleRevision); }
      if resolutionOverride == c.override_ { return Unchanged; }
      var entry := Entry(id, resolutionOverride, c.override_, resolutionRevision, resolutionRevision + 1, c.decision);
      resolutionOverride := c.override_;
      resolutionRevision := resolutionRevision + 1;
      return Changed(entry);
    }
  }

  // ----- runs -----

  function Run(line: Line, commands: seq<Command>): Line {
    if commands == [] then line else After(Run(line, commands[..|commands| - 1]), commands[|commands| - 1])
  }

  /** The audit entries a run emits, oldest first. */
  function Trail(line: Line, commands: seq<Command>): seq<Entry> {
    if commands == [] then []
    else
      var n := |commands| - 1;
      var before := Run(line, commands[..n]);
      if After(before, commands[n]) != before then Trail(line, commands[..n]) + [EntryOf(before, commands[n])]
      else Trail(line, commands[..n])
  }

  /** Applying a trail to a line, entry by entry. */
  function Replay(line: Line, trail: seq<Entry>): Line {
    if trail == [] then line
    else Replay(line, trail[..|trail| - 1]).(override_ := trail[|trail| - 1].next, revision := trail[|trail| - 1].newRevision)
  }

  /** Each entry starts where the one before it ended, changes the value, and raises the revision by
      one; the first starts at the line. */
  predicate Unbroken(line: Line, trail: seq<Entry>) {
    forall i :: 0 <= i < |trail| ==>
      && trail[i].lineId == line.id
      && trail[i].previousRevision == line.revision + i && trail[i].newRevision == line.revision + i + 1
      && trail[i].previous == (if i == 0 then line.override_ else trail[i - 1].next)
      && trail[i].next != trail[i].previous
      && ValidOverride(trail[i].next) && ValidDecision(trail[i].decision)
  }

  function LastValue(line: Line, trail: seq<Entry>): LinkStatus {
    if trail == [] then line.override_ else trail[|trail| - 1].next
  }

  lemma ChainGrows(line: Line, trail: seq<Entry>, end: Line, c: Command)
    requires Unbroken(line, trail) && end == Line(line.id, LastValue(line, trail), line.revision + |trail|)
    requires Admissible(end, c) && c.override_ != end.override_
    ensures Unbroken(line, trail + [EntryOf(end, c)])
  {
    hide ValidDecision, ValidOverride;
  }

  /** Over any run the emitted entries form an unbroken chain, as long as the revision has grown, and
      replaying them reproduces the line. */
  lemma {:induction false} TrailAccountsForLine(line: Line, commands: seq<Command>)
    ensures var end, trail := Run(line, commands), Trail(line, commands);
      && Unbroken(line, trail) && |trail| == end.revision - line.revision && Replay(line, trail) == end
      && end.id == line.id && end.override_ == LastValue(line, trail)
  {
    hide Unbroken, Admissible;
    assert commands == [] ==> Unbroken(line, Trail(line, commands)) by { EmptyTrail(line); }
    if commands != [] {
      var n := |commands| - 1;
      TrailAccountsForLine(line, commands[..n]);
      var trail := Trail(line, commands[..n]);
      var before := Run(line, commands[..n]);
      if After(before, commands[n]) != before {
        var entry := EntryOf(before, commands[n]);
        assert (trail + [entry])[..|trail|] == trail;
        ChainGrows(line, trail, before, commands[n]);
      }
    }
  }

  lemma EmptyTrail(line: Line)
    ensures Unbroken(line, [])
  {}

  lemma OneMore(line: Line, commands: seq<Command>, c: Command)
    ensures var before := Run(line, commands);
      && Run(line, commands + [c]) == After(before, c)
      && Trail(line, commands + [c]) == Trail(line, commands) + if After(before, c) != before then [EntryOf(before, c)] else []
  {
    hide After, EntryOf;
    assert (commands + [c])[..|commands|] == commands && (commands + [c])[|commands|] == c;
  }

  /** Rejected and same-value decisions can be struck out of a run without changing its line or its
      trail. */
  lemma {:induction false} IneffectiveDecisionsVanish(line: Line, first: seq<Command>, c: Command, rest: seq<Command>)
    requires After(Run(line, first), c) == Run(line, first)
    ensures Run(line, first + [c] + rest) == Run(line, first + rest)
    ensures Trail(line, first + [c] + rest) == Trail(line, first + rest)
  {
    hide After, EntryOf, Run, Trail;
    if rest == [] {
      OneMore(line, first, c);
      assert first + [c] + rest == first + [c] && first + rest == first;
    } else {
      var n := |rest| - 1;
      var most, last := rest[..n], rest[n];
      assert rest == most + [last];
      IneffectiveDecisionsVanish(line, first, c, most);
      assert first + [c] + rest == first + [c] + most + [last] && first + rest == first + most + [last];
      OneMore(line, first + [c] + most, last);
      OneMore(line, first + most, last);
    }
  }

  lemma {:induction false} RevisionGrows(line: Line, first: seq<Command>, rest: seq<Command>)
    ensures Run(line, first).revision <= Run(line, first + rest).revision
  {
    hide ValidDecision;
    if rest == [] {
      assert first + rest == first;
    } else {
      var n := |rest| - 1;
      RevisionGrows(line, first, rest[..n]);
      assert (first + rest)[..|first| + n] == first + rest[..n];
    }
  }

  /** Of two decisions that take effect, the later one expects a larger revision: one expected
      revision decides at most once. */
  lemma OneDecisionPerRevision(line: Line, commands: seq<Command>, i: nat, j: nat)
    requires i < j < |commands|
    requires After(Run(line, commands[..i]), commands[i]) != Run(line, commands[..i])
    requires After(Run(line, commands[..j]), commands[j]) != Run(line, commands[..j])
    ensures commands[i].expected < commands[j].expected
  {
    hide ValidDecision;
    assert commands[..i + 1][..i] == commands[..i];
    assert commands[..j] == commands[..i + 1] + commands[i + 1..j];
    RevisionGrows(line, commands[..i + 1], commands[i + 1..j]);
  }

  // ----- the effective status -----

  datatype Mapping = Mapping(identityConflict: bool, resource: bool)

  function EffectiveLineStatus(override_: LinkStatus, m: Mapping, resourceActive: bool): (LinkStatus, Cause) {
    if override_ == NotApplicable then (NotApplicable, LineNotApplicable)
    else if override_ == Conflict then (Conflict, LineConflictOverride)
    else if m.identityConflict then (Conflict, IdentityConflict)
    else if !m.resource then (Pending, Unresolved)
    else if !resourceActive then (Suspended, ResourceInactive)
    else (Linked, NoCause)
  }

  /** Over any run the status of a line is explained by its last audited decision, or by the override it
      was loaded with: an explicit override decides; otherwise an identity conflict, a missing resource and
      an inactive one are told apart, and a line counts as linked only with a confirmed, active one. */
  lemma StatusExplained(line: Line, commands: seq<Command>, m: Mapping, resourceActive: bool)
    ensures var last, result := LastValue(line, Trail(line, commands)), EffectiveLineStatus(Run(line, commands).override_, m, resourceActive);
      var derived := last != NotApplicable && last != Conflict;
      && (result.0 == NotApplicable <==> last == NotApplicable) && (result.1 == LineNotApplicable <==> last == NotApplicable)
      && (result.0 == Conflict <==> last == Conflict || (derived && m.identityConflict))
      && (result.1 == LineConflictOverride <==> last == Conflict) && (result.1 == IdentityConflict <==> derived && m.identityConflict)
      && (result.0 == Pending <==> derived && !m.identityConflict && !m.resource) && (result.0 == Pending <==> result.1 == Unresolved)
      && (result.0 == Suspended <==> derived && !m.identityConflict && m.resource && !resourceActive) && (result.0 == Suspended <==> result.1 == ResourceInactive)
      && (result.0 == Linked <==> derived && !m.identityConflict && m.resource && resourceActive) && (result.0 == Linked <==> result.1 == NoCause)
  {
    TrailAccountsForLine(line, commands);
    hide Run, Trail, Replay, ValidDecision;
  }

  // ----- admissible decisions -----

  /** Only NONE, NO_APLICA and CONFLICTO can be stored; a decision is signed with an actor, a reason, the
      manual origin and a time; the expected revision is the line's.  The first of these to fail names
      the rejection. */
  lemma AdmissibleMeans(line: Line, c: Command)
    ensures var storable := c.override_ in {NoOverride, NotApplicable, Conflict};
      var signed := TrimSpace(c.decision.actor) != "" && TrimSpace(c.decision.reason) != "" && c.decision.origin == "manual" && c.decision.at.At?;
      && (Admissible(line, c) <==> storable && signed && line.revision == c.expected)
      && FailureOf(c) == (if !storable then InvalidOverride else if !signed then InvalidMetadata else StaleRevision)
  {
    hide TrimSpace;
  }

  /** Every audited decision of a run is a storable, signed change. */
  lemma AuditIsSigned(line: Line, commands: seq<Command>, e: Entry)
    requires e in Trail(line, commands)
    ensures e.next in {NoOverride, NotApplicable, Conflict} && e.next != e.previous && e.newRevision == e.previousRevision + 1 && e.lineId == line.id
    ensures TrimSpace(e.decision.actor) != "" && TrimSpace(e.decision.reason) != "" && e.decision.origin == "manual" && e.decision.at.At?
  {
    TrailAccountsForLine(line, commands);
    hide Run, Replay, TrimSpace;
    var trail := Trail(line, commands);
    hide Trail;
    var i :| 0 <= i < |trail| && trail[i] == e;
  }
}

/** The dogfood parity gate: which parsed reports are accepted, and what a full pass then certifies. */
module Parity {
  import opened Common

  datatype Status = Passed | Failed | Blocked | Unsupported | NotRun

  datatype Facet =
    | SourceIdentity | PackageIdentity | ServiceIsolation | McpChildIsolation | WorkspaceBinding | ObservationConsent
    | PluginSource | PluginInstallation | PluginDiscovery | PluginInventory | PluginEnablement | PluginRenderedBytes
    | PluginCache | PluginActivation | NormalTargetSnapshot
    | SkillDelivery | McpRuntime | ModelMcpCall | HookLifecycle | Mapping | AcceptedEnvelopes | Diagnostics | Drain
    | SessionStream | SemanticDispatch | SemanticProvenance | Receipt | CorrectiveInfluence | Rollback
    | NormalTargetUnchanged

  const PREFLIGHT: seq<Facet> := [
    SourceIdentity, PackageIdentity, ServiceIsolation, McpChildIsolation, WorkspaceBinding, ObservationConsent,
    PluginSource, PluginInstallation, PluginDiscovery, PluginInventory, PluginEnablement, PluginRenderedBytes,
    PluginCache, PluginActivation, NormalTargetSnapshot
  ]

  const POSTFLIGHT: seq<Facet> := [
    SkillDelivery, McpRuntime, ModelMcpCall, HookLifecycle, Mapping, AcceptedEnvelopes, Diagnostics, Drain,
    SessionStream, SemanticDispatch, SemanticProvenance, Receipt, CorrectiveInfluence, Rollback, NormalTargetUnchanged
  ]

  /** In the order of their names. */
  const HOOKS: seq<Facet> := [AcceptedEnvelopes, Diagnostics, Drain, HookLifecycle, Mapping]

  datatype Action =
    | NoAction | DoNotLaunch | ProvisionIsolatedRoot | ReregisterIsolatedMcp | RecaptureIsolatedMcpChild
    | GrantExactWorktree | ListExactTarget | ManualActivationReview | CompletePostflight

  datatype Row = Row(status: Status, reason: Option<string>, next: Action)

  datatype Scope = Scope(hooks: bool, stream: bool, semantic: bool, influence: bool)

  datatype Presence = Present | Absent | NotRegular | Oversized | Unreadable | Unstable

  /** Digest and size are carried by a present file and by no other. */
  datatype Observation = Observation(path: string, presence: Presence, content: Option<string>, size: Option<nat>,
      at: string)

  datatype TargetFile = TargetFile(slot: string, before: Observation, after: Option<Observation>)

  datatype IsolationMode = Isolated | Ambient | UnknownMode

  /** Path digests of the isolated service, and of the normal one. */
  datatype Paths = Paths(state: string, endpoint: string, storage: string, config: string, executable: string)

  datatype Identity = Identity(version: string, mode: IsolationMode, normalMode: IsolationMode, own: Paths,
      normal: Paths)

  /** The closed observations, down to the distinctions the gate draws. */
  datatype Observed = Observed(
    activationActive: bool,
    isolated: bool,
    registrationOwned: bool,
    bindingExact: bool,
    childReady: bool,
    consentActive: bool,
    workspaceMatches: bool,
    mappingPresent: bool,
    accepted: nat,
    undelivered: nat,
    drained: bool,
    hookCoverage: bool,
    streamCoverage: bool)

  datatype Report = Report(identity: Identity, scope: Scope, observed: Observed, target: Option<seq<TargetFile>>,
                           rows: Facet -> Row)

  datatype Fault =
    | WorkspaceMismatch | ConsentMismatch | ActivationMismatch | IsolationStateMismatch | IsolationIdentityMismatch
    | IsolationIdentityShared | McpChildMismatch | MappingMissing | EnvelopesMissing | DrainMismatch
    | HookCoverageMissing
    | StreamCoverageMissing | SnapshotUnobservable | AfterSnapshotMissing | UnchangedContentMismatch
    | ConsentContinuation | IsolationContinuation | McpChildContinuation | ActivationContinuation | ActivationReview
    | HookNotUnsupported | StreamNotUnsupported | StreamUnproven | CapabilityNotUnsupported | OutOfScopeNotNotRun

  datatype Gate = Gate(preflight: Status, launchAllowed: bool, full: Status, failed: set<Facet>, blocked: set<Facet>,
                       unsupported: set<Facet>, notRun: set<Facet>)

  const PROVEN_VERSIONS: seq<string> := ["0.148.0", "0.150.1"]

  // ----- aggregation

  function Aggregate(names: seq<Facet>, rows: Facet -> Row): Status {
    var statuses := set f | f in names :: rows(f).status;
    if Failed in statuses then Failed
    else if Blocked in statuses then Blocked
    else if Unsupported in statuses then Unsupported
    else if NotRun in statuses then NotRun
    else Passed
  }

  function Severity(s: Status): nat {
    match s
    case Passed => 0
    case NotRun => 1
    case Unsupported => 2
    case Blocked => 3
    case Failed => 4
  }

  /** The aggregate is the most severe status among the facets, and passed when there is none. */
  lemma {:induction false} AggregateIsWorst(names: seq<Facet>, rows: Facet -> Row)
    ensures forall f :: f in names ==> Severity(rows(f).status) <= Severity(Aggregate(names, rows))
    ensures Aggregate(names, rows) == Passed || exists f :: f in names && rows(f).status == Aggregate(names, rows)
    ensures Aggregate(names, rows) == Passed <==> forall f :: f in names ==> rows(f).status == Passed
  {
    var statuses := set f | f in names :: rows(f).status;
    assert forall f :: f in names ==> rows(f).status in statuses;
  }

  /** The facets a scope asks for after the run. */
  predicate Asks(scope: Scope, f: Facet) {
    || f in [SkillDelivery, McpRuntime, ModelMcpCall, Receipt, Rollback, NormalTargetUnchanged]
    || (scope.hooks && f in HOOKS) || (scope.stream && f == SessionStream)
    || (scope.semantic && f in [SemanticDispatch, SemanticProvenance]) || (scope.influence && f == CorrectiveInfluence)
  }

  function Required(scope: Scope): seq<Facet> {
    [SkillDelivery, McpRuntime, ModelMcpCall, Receipt, Rollback, NormalTargetUnchanged]
    + (if scope.hooks then HOOKS else [])
    + (if scope.stream then [SessionStream] else [])
    + (if scope.semantic then [SemanticDispatch, SemanticProvenance] else [])
    + (if scope.influence then [CorrectiveInfluence] else [])
  }

  method RequiredPostflight(scope: Scope) returns (names: seq<Facet>)
    ensures Distinct(names) && forall f :: f in names <==> Asks(scope, f)
  {
    names := [SkillDelivery, McpRuntime, ModelMcpCall, Receipt, Rollback, NormalTargetUnchanged];
    if scope.hooks { names := names + HOOKS; }
    if scope.stream { names := names + [SessionStream]; }
    if scope.semantic { names := names + [SemanticDispatch, SemanticProvenance]; }
    if scope.influence { names := names + [CorrectiveInfluence]; }
  }

  lemma {:induction false} RequiredIsAsked(scope: Scope, f: Facet)
    ensures f in Required(scope) <==> Asks(scope, f)
    ensures f in Required(scope) ==> f in POSTFLIGHT
  {
  }

  // ----- the normal-target lane

  predicate Observable(p: Presence) {
    p.Present? || p.Absent?
  }

  datatype Change = AfterMissing | Unobservable | PathAndContent | Content | Moved

  function ChangeOf(f: TargetFile): Option<Change> {
    if f.after.None? then Some(AfterMissing)
    else
      var before, after := f.before, f.after.value;
      if !Observable(before.presence) || !Observable(after.presence) then Some(Unobservable)
      else
        var moved := before.path != after.path;
        var changed := !(before.presence == after.presence && before.content == after.content
            && before.size == after.size);
        if moved && changed then Some(PathAndContent)
        else if changed then Some(Content)
        else if moved then Some(Moved)
        else None
  }

  /** The slot kept its path and its bytes. */
  predicate Held(f: TargetFile) {
    && f.after.Some? && Observable(f.before.presence)
    && f.after.value == f.before.(at := f.after.value.at)
  }

  /** Strongest first. */
  function TargetReason(files: seq<TargetFile>): Option<Change> {
    var changes := set f | f in files :: ChangeOf(f);
    if Some(AfterMissing) in changes then Some(AfterMissing)
    else if Some(Unobservable) in changes then Some(Unobservable)
    else if Some(PathAndContent) in changes then Some(PathAndContent)
    else if Some(Content) in changes then Some(Content)
    else if Some(Moved) in changes then Some(Moved)
    else None
  }

  function ReasonText(c: Change): string {
    match c
    case AfterMissing => "normal_target_after_snapshot_missing"
    case Unobservable => "normal_target_content_unobservable"
    case PathAndContent => "normal_target_path_and_content_changed"
    case Content => "normal_target_content_changed"
    case Moved => "normal_target_path_moved"
  }

  /** No reason exactly when every slot held; otherwise the strongest change of any slot. */
  lemma {:induction false} ReasonIsStrongest(files: seq<TargetFile>)
    ensures TargetReason(files).None? <==> forall f :: f in files ==> Held(f)
    ensures TargetReason(files).Some? ==>
              && (exists f :: f in files && ChangeOf(f) == TargetReason(files))
              && forall f :: f in files && ChangeOf(f).Some? ==>
                  Rank(TargetReason(files).value) <= Rank(ChangeOf(f).value)
  {
    var changes := set f | f in files :: ChangeOf(f);
    assert forall f :: f in files ==> ChangeOf(f) in changes;
    assert forall f :: ChangeOf(f).None? <==> Held(f);
  }

  function Rank(c: Change): nat {
    match c
    case AfterMissing => 0
    case Unobservable => 1
    case PathAndContent => 2
    case Content => 3
    case Moved => 4
  }

  function TargetFault(files: seq<TargetFile>, rows: Facet -> Row): Option<Fault> {
    var row := rows(NormalTargetUnchanged);
    if rows(NormalTargetSnapshot).status.Passed? && (exists f :: f in files && !Observable(f.before.presence))
    then Some(SnapshotUnobservable)
    else
      match TargetReason(files)
      case Some(AfterMissing) => if row.status.Passed? then Some(AfterSnapshotMissing) else None
      case Some(change) =>
        if !row.status.Failed? || row.reason != Some(ReasonText(change)) then Some(UnchangedContentMismatch)
        else None
      case None =>
        if row.reason in [Some(ReasonText(Unobservable)), Some(ReasonText(PathAndContent)),
                                Some(ReasonText(Content)), Some(ReasonText(Moved))]
        then Some(UnchangedContentMismatch)
        else None
  }

  // ----- the checks against the observations

  predicate Shared(own: Paths, normal: Paths) {
    || own.state == normal.state || own.endpoint == normal.endpoint || own.storage == normal.storage
    || own.config == normal.config || own.executable == normal.executable
  }

  function ObservedFault(r: Report): Option<Fault> {
    var o, id := r.observed, r.identity;
    var passed := (f: Facet) => r.rows(f).status.Passed?;
    if passed(WorkspaceBinding) != o.workspaceMatches then Some(WorkspaceMismatch)
    else if passed(ObservationConsent) != o.consentActive then Some(ConsentMismatch)
    else if passed(PluginActivation) != o.activationActive then Some(ActivationMismatch)
    else if passed(ServiceIsolation) != o.isolated then Some(IsolationStateMismatch)
    else if passed(ServiceIsolation) && !(id.mode.Isolated? && id.normalMode.Ambient?) then
        Some(IsolationIdentityMismatch)
    else if passed(ServiceIsolation) && Shared(id.own, id.normal) then Some(IsolationIdentityShared)
    else if passed(McpChildIsolation) != (o.registrationOwned && o.bindingExact && o.childReady) then
        Some(McpChildMismatch)
    else if passed(Mapping) && !o.mappingPresent then Some(MappingMissing)
    else if passed(AcceptedEnvelopes) && o.accepted == 0 then Some(EnvelopesMissing)
    else if passed(Drain) && (!o.drained || o.undelivered != 0) then Some(DrainMismatch)
    else if passed(HookLifecycle) && !o.hookCoverage then Some(HookCoverageMissing)
    else if passed(SessionStream) && !o.streamCoverage then Some(StreamCoverageMissing)
    else None
  }

  function ContinuationFault(r: Report): Option<Fault> {
    var consent, isolation, child, activation :=
      r.rows(ObservationConsent), r.rows(ServiceIsolation), r.rows(McpChildIsolation), r.rows(PluginActivation);
    var expected := if r.observed.registrationOwned && r.observed.bindingExact then RecaptureIsolatedMcpChild
                    else ReregisterIsolatedMcp;
    if !consent.status.Passed? && !consent.next.GrantExactWorktree? then Some(ConsentContinuation)
    else if !isolation.status.Passed? && !isolation.next.ProvisionIsolatedRoot? then Some(IsolationContinuation)
    else if !child.status.Passed? && child.next != expected then Some(McpChildContinuation)
    else if activation.reason == Some("installed_not_activated") && !activation.next.ListExactTarget?
    then Some(ActivationContinuation)
    else if activation.reason in [Some("foreign"), Some("modified"), Some("ambiguous")]
            && !activation.next.ManualActivationReview?
    then Some(ActivationReview)
    else None
  }

  function ScopeFault(r: Report): Option<Fault> {
    if !r.scope.hooks && (exists f :: f in HOOKS && !r.rows(f).status.Unsupported?) then Some(HookNotUnsupported)
    else if !r.scope.stream && !r.rows(SessionStream).status.Unsupported? then Some(StreamNotUnsupported)
    else if r.scope.stream && r.identity.version !in PROVEN_VERSIONS then Some(StreamUnproven)
    else None
  }

  /** What is wrong with one facet outside the scope. */
  function OutOfScope(required: seq<Facet>, rows: Facet -> Row, f: Facet): Option<Fault> {
    if f in required then None
    else if f in HOOKS || f == SessionStream then
      if rows(f).status.Unsupported? then None else Some(CapabilityNotUnsupported)
    else if rows(f).status.NotRun? then None
    else Some(OutOfScopeNotNotRun)
  }

  function FirstOutOfScope(required: seq<Facet>, rows: Facet -> Row, names: seq<Facet>): Option<Fault> {
    if names == [] then None
    else
      var fault := OutOfScope(required, rows, names[0]);
      if fault.Some? then fault else FirstOutOfScope(required, rows, names[1..])
  }

  method ValidateOutOfScope(required: seq<Facet>, rows: Facet -> Row) returns (fault: Option<Fault>)
    ensures fault == FirstOutOfScope(required, rows, POSTFLIGHT)
  {
    var i := 0;
    while i < |POSTFLIGHT|
      invariant 0 <= i <= |POSTFLIGHT|
      invariant FirstOutOfScope(required, rows, POSTFLIGHT) == FirstOutOfScope(required, rows, POSTFLIGHT[i..])
    {
      assert POSTFLIGHT[i..][1..] == POSTFLIGHT[i + 1..];
      fault := OutOfScope(required, rows, POSTFLIGHT[i]);
      if fault.Some? { return; }
      i := i + 1;
    }
    fault := None;
  }

  function With(rows: Facet -> Row, s: Status): set<Facet> {
    set f | f in PREFLIGHT + POSTFLIGHT && rows(f).status == s
  }

  function Classify(r: Report): Result<Gate, Fault> {
    var targetFault := if r.target.Some? then TargetFault(r.target.value, r.rows) else None;
    if ObservedFault(r).Some? then Err(ObservedFault(r).value)
    else if targetFault.Some? then Err(targetFault.value)
    else if ContinuationFault(r).Some? then Err(ContinuationFault(r).value)
    else if ScopeFault(r).Some? then Err(ScopeFault(r).value)
    else
      var preflight, required := Aggregate(PREFLIGHT, r.rows), Required(r.scope);
      var outOfScope := FirstOutOfScope(required, r.rows, POSTFLIGHT);
      if outOfScope.Some? then Err(outOfScope.value)
      else
        var full := if preflight.Passed? then Aggregate(required, r.rows) else preflight;
        Ok(Gate(preflight, preflight.Passed?, full, With(r.rows, Failed), With(r.rows, Blocked),
                With(r.rows, Unsupported), With(r.rows, NotRun)))
  }

  // ----- the main results

  lemma {:induction false} NoneOutOfScope(required: seq<Facet>, rows: Facet -> Row, names: seq<Facet>)
    ensures FirstOutOfScope(required, rows, names).None? <==> forall f :: f in names ==>
          OutOfScope(required, rows, f).None?
  {
    if names != [] {
      NoneOutOfScope(required, rows, names[1..]);
      assert forall f :: f in names <==> f == names[0] || f in names[1..];
    }
  }

  lemma {:induction false} AcceptedParts(r: Report)
    requires Classify(r).Ok?
    ensures ObservedFault(r).None? && ContinuationFault(r).None? && ScopeFault(r).None?
    ensures r.target.Some? ==> TargetFault(r.target.value, r.rows).None?
    ensures FirstOutOfScope(Required(r.scope), r.rows, POSTFLIGHT).None?
    ensures
      var gate, preflight := Classify(r).value, Aggregate(PREFLIGHT, r.rows);
      && gate.launchAllowed == preflight.Passed?
      && gate.full == (if preflight.Passed? then Aggregate(Required(r.scope), r.rows) else preflight)
      && gate.failed == With(r.rows, Failed) && gate.blocked == With(r.rows, Blocked)
  {
    hide Aggregate, Required, TargetFault, ObservedFault, ContinuationFault, ScopeFault, FirstOutOfScope, With;
  }

  /** A full pass says exactly that every preflight facet and every facet the scope asks for passed. */
  lemma {:induction false} PassIff(r: Report)
    ensures Classify(r).Ok? ==>
              && (Classify(r).value.full == Passed
                  <==> forall f :: f in PREFLIGHT || Asks(r.scope, f) ==> r.rows(f).status == Passed)
              && (Classify(r).value.launchAllowed <==> forall f :: f in PREFLIGHT ==> r.rows(f).status == Passed)
  {
    hide Required, Asks, Aggregate, Classify, TargetFault, ObservedFault, ScopeFault, FirstOutOfScope, With, PREFLIGHT,
         POSTFLIGHT;
    if Classify(r).Ok? {
      AcceptedParts(r);
      AggregateIsWorst(PREFLIGHT, r.rows);
      AggregateIsWorst(Required(r.scope), r.rows);
      forall f | true ensures f in Required(r.scope) <==> Asks(r.scope, f) { RequiredIsAsked(r.scope, f); }
    }
  }

  /** No facet is ignored: an accepted report with any failed or blocked facet does not pass, and lists it. */
  lemma {:induction false} NothingIgnored(r: Report, f: Facet)
    ensures Classify(r).Ok? && (r.rows(f).status.Failed? || r.rows(f).status.Blocked?) ==>
              Classify(r).value.full != Passed && (f in Classify(r).value.failed || f in Classify(r).value.blocked)
  {
    hide Required, Asks, Aggregate, Classify, TargetFault, ObservedFault, ScopeFault, FirstOutOfScope, PREFLIGHT,
         POSTFLIGHT;
    if Classify(r).Ok? {
      AcceptedParts(r);
      EveryFacet(f);
      PassIff(r);
      NoneOutOfScope(Required(r.scope), r.rows, POSTFLIGHT);
      RequiredIsAsked(r.scope, f);
    }
  }

  /**
   * In an accepted report five facets pass exactly when they were observed,
   * and five more are backed when they pass.
   */
  lemma {:induction false} ObservationsDecide(r: Report)
    ensures Classify(r).Ok? ==>
              && (r.rows(WorkspaceBinding).status.Passed? <==> r.observed.workspaceMatches)
              && (r.rows(ObservationConsent).status.Passed? <==> r.observed.consentActive)
              && (r.rows(PluginActivation).status.Passed? <==> r.observed.activationActive)
              && (r.rows(ServiceIsolation).status.Passed? <==> r.observed.isolated)
              && (r.rows(ServiceIsolation).status.Passed? ==>
                    && r.identity.mode.Isolated? && r.identity.normalMode.Ambient?
                    && !Shared(r.identity.own, r.identity.normal))
              && (r.rows(McpChildIsolation).status.Passed?
                  <==> r.observed.registrationOwned && r.observed.bindingExact && r.observed.childReady)
              && (r.rows(Mapping).status.Passed? ==> r.observed.mappingPresent)
              && (r.rows(AcceptedEnvelopes).status.Passed? ==> r.observed.accepted > 0)
              && (r.rows(Drain).status.Passed? ==> r.observed.drained && r.observed.undelivered == 0)
              && (r.rows(HookLifecycle).status.Passed? ==> r.observed.hookCoverage)
              && (r.rows(SessionStream).status.Passed? ==> r.observed.streamCoverage)
  {
    hide Classify, TargetFault, ContinuationFault, ScopeFault, FirstOutOfScope, Required, Aggregate, With;
    if Classify(r).Ok? { AcceptedParts(r); }
  }

  /** In an accepted report a row that did not pass, or names a cause to recover from, names the way on. */
  lemma {:induction false} RecoveryNamed(r: Report)
    ensures Classify(r).Ok? ==>
              && (!r.observed.consentActive ==> r.rows(ObservationConsent).next == GrantExactWorktree)
              && (!r.observed.isolated ==> r.rows(ServiceIsolation).next == ProvisionIsolatedRoot)
              && (r.observed.registrationOwned && r.observed.bindingExact && !r.observed.childReady ==>
                    r.rows(McpChildIsolation).next == RecaptureIsolatedMcpChild)
              && (!(r.observed.registrationOwned && r.observed.bindingExact) ==>
                    r.rows(McpChildIsolation).next == ReregisterIsolatedMcp)
              && (r.rows(PluginActivation).reason == Some("installed_not_activated") ==>
                    r.rows(PluginActivation).next == ListExactTarget)
              && (r.rows(PluginActivation).reason in [Some("foreign"), Some("modified"), Some("ambiguous")] ==>
                    r.rows(PluginActivation).next == ManualActivationReview)
  {
    hide Classify, TargetFault, ScopeFault, FirstOutOfScope, Required, Aggregate, With;
    if Classify(r).Ok? {
      AcceptedParts(r);
      ObservationsDecide(r);
    }
  }

  lemma {:induction false} EveryFacet(f: Facet)
    ensures f in PREFLIGHT || f in POSTFLIGHT
  {
  }

  /** With the lane supplied, an accepted report blames a changed slot by the strongest change, and never passes it. */
  lemma {:induction false} ChangeIsNamed(r: Report)
    ensures Classify(r).Ok? && r.target.Some? && TargetReason(r.target.value).Some? ==>
              && !r.rows(NormalTargetUnchanged).status.Passed?
              && (TargetReason(r.target.value) != Some(AfterMissing) ==>
                    r.rows(NormalTargetUnchanged).reason == Some(ReasonText(TargetReason(r.target.value).value)))
  {
    hide Classify, ObservedFault, ContinuationFault, ScopeFault, FirstOutOfScope, TargetReason, Required, Aggregate,
         With;
    if Classify(r).Ok? { AcceptedParts(r); }
  }

  /** A full pass certifies separate isolation identities and untouched normal-target slots. */
  lemma {:induction false} PassCertifies(r: Report)
    ensures Classify(r).Ok? && Classify(r).value.full == Passed ==>
              && r.identity.mode.Isolated? && r.identity.normalMode.Ambient?
              && !Shared(r.identity.own, r.identity.normal)
              && (r.target.Some? ==> forall f :: f in r.target.value ==> Held(f))
              && r.observed.consentActive && r.observed.activationActive && r.observed.workspaceMatches
              && r.observed.registrationOwned && r.observed.bindingExact && r.observed.childReady
              && (r.scope.hooks ==> r.observed.drained && r.observed.undelivered == 0 && r.observed.accepted > 0)
              && (r.scope.stream ==> r.observed.streamCoverage && r.identity.version in PROVEN_VERSIONS)
  {
    hide Classify, TargetFault, TargetReason, ObservedFault, ContinuationFault, FirstOutOfScope, Held, Shared, Required,
         Aggregate, With;
    if Classify(r).Ok? && Classify(r).value.full == Passed {
      AcceptedParts(r);
      ObservationsDecide(r);
      PassIff(r);
      assert r.rows(ServiceIsolation).status == Passed && r.rows(McpChildIsolation).status == Passed;
      assert r.rows(ObservationConsent).status == Passed && r.rows(PluginActivation).status == Passed;
      assert r.rows(WorkspaceBinding).status == Passed && Asks(r.scope, NormalTargetUnchanged);
      assert r.scope.hooks ==> Asks(r.scope, Drain) && Asks(r.scope, AcceptedEnvelopes);
      assert r.scope.stream ==> Asks(r.scope, SessionStream);
      if r.target.Some? {
        ChangeIsNamed(r);
        ReasonIsStrongest(r.target.value);
      }
    }
  }

  /** What the outcome of an accepted report says: the lists by status, and the worst rows before and after the run. */
  lemma {:induction false} GateIs(r: Report, f: Facet)
    requires Classify(r).Ok?
    ensures
      var gate, status := Classify(r).value, r.rows(f).status;
      && (f in gate.failed <==> status.Failed?) && (f in gate.blocked <==> status.Blocked?)
      && (f in gate.unsupported <==> status.Unsupported?) && (f in gate.notRun <==> status.NotRun?)
    ensures
      var gate := Classify(r).value;
      && (f in PREFLIGHT ==> Severity(r.rows(f).status) <= Severity(gate.preflight))
      && (gate.preflight == Passed || exists g :: g in PREFLIGHT && r.rows(g).status == gate.preflight)
      && gate.launchAllowed == (gate.preflight == Passed)
      && (gate.preflight != Passed ==> gate.full == gate.preflight)
      && (gate.preflight == Passed ==>
            && (Asks(r.scope, f) ==> Severity(r.rows(f).status) <= Severity(gate.full))
            && (gate.full == Passed || exists g :: Asks(r.scope, g) && r.rows(g).status == gate.full))
  {
    hide ObservedFault, TargetFault, ContinuationFault, ScopeFault, FirstOutOfScope, Aggregate, Severity, Asks;
    EveryFacet(f);
    AggregateIsWorst(PREFLIGHT, r.rows);
    AggregateIsWorst(Required(r.scope), r.rows);
    forall g: Facet ensures g in Required(r.scope) <==> Asks(r.scope, g) { RequiredIsAsked(r.scope, g); }
    hide Required, PREFLIGHT, POSTFLIGHT;
  }

  // ----- which reports are accepted, and what the others are refused for

  /** The place of a check in the order they are made. */
  function Place(fault: Fault): nat {
    match fault
    case WorkspaceMismatch => 0
    case ConsentMismatch => 1
    case ActivationMismatch => 2
    case IsolationStateMismatch => 3
    case IsolationIdentityMismatch => 4
    case IsolationIdentityShared => 5
    case McpChildMismatch => 6
    case MappingMissing => 7
    case EnvelopesMissing => 8
    case DrainMismatch => 9
    case HookCoverageMissing => 10
    case StreamCoverageMissing => 11
    case SnapshotUnobservable => 12
    case AfterSnapshotMissing => 13
    case UnchangedContentMismatch => 14
    case ConsentContinuation => 15
    case IsolationContinuation => 16
    case McpChildContinuation => 17
    case ActivationContinuation => 18
    case ActivationReview => 19
    case HookNotUnsupported => 20
    case StreamNotUnsupported => 21
    case StreamUnproven => 22
    case OutOfScopeNotNotRun => 23
    case CapabilityNotUnsupported => 24
  }

  predicate Seen(o: Observation) {
    o.presence == Present || o.presence == Absent
  }

  predicate Unobserved(f: TargetFile) {
    !Seen(f.before) || (f.after.Some? && !Seen(f.after.value))
  }

  predicate Altered(f: TargetFile) {
    f.after.Some? && (f.before.presence, f.before.content, f.before.size)
                     != (f.after.value.presence, f.after.value.content, f.after.value.size)
  }

  predicate Displaced(f: TargetFile) {
    f.after.Some? && f.before.path != f.after.value.path
  }

  /** What the row on the normal target must blame, when every slot was observed again. */
  predicate Blames(files: seq<TargetFile>, reason: Option<string>) {
    if exists f :: f in files && Unobserved(f) then reason == Some("normal_target_content_unobservable")
    else if exists f :: f in files && Displaced(f) && Altered(f) then
      reason == Some("normal_target_path_and_content_changed")
    else if exists f :: f in files && Altered(f) then reason == Some("normal_target_content_changed")
    else reason == Some("normal_target_path_moved")
  }

  predicate SnapshotUnfounded(files: seq<TargetFile>, row: Row) {
    row.status == Passed && exists f :: f in files && !Seen(f.before)
  }

  predicate PassedUnseen(files: seq<TargetFile>, row: Row) {
    row.status == Passed && exists f :: f in files && f.after == None
  }

  /** Every slot was observed again, and the row blames none of them, or the wrong change, or one without any. */
  predicate Misblamed(files: seq<TargetFile>, row: Row) {
    && (forall f :: f in files ==> f.after != None)
    && if exists f :: f in files && (Unobserved(f) || Altered(f) || Displaced(f))
       then !(row.status == Failed && Blames(files, row.reason))
       else || row.reason == Some("normal_target_content_unobservable")
            || row.reason == Some("normal_target_path_and_content_changed")
            || row.reason == Some("normal_target_content_changed") || row.reason == Some("normal_target_path_moved")
  }

  /** The report does not meet the demand behind this fault. */
  predicate Violated(r: Report, fault: Fault) {
    var o, id, rows := r.observed, r.identity, r.rows;
    match fault
    case WorkspaceMismatch => rows(WorkspaceBinding).status.Passed? <==> !o.workspaceMatches
    case ConsentMismatch => rows(ObservationConsent).status.Passed? <==> !o.consentActive
    case ActivationMismatch => rows(PluginActivation).status.Passed? <==> !o.activationActive
    case IsolationStateMismatch => rows(ServiceIsolation).status.Passed? <==> !o.isolated
    case IsolationIdentityMismatch =>
      rows(ServiceIsolation).status.Passed? && (id.mode != Isolated || id.normalMode != Ambient)
    case IsolationIdentityShared =>
      && rows(ServiceIsolation).status.Passed?
      && !(&& id.own.state != id.normal.state && id.own.endpoint != id.normal.endpoint
           && id.own.storage != id.normal.storage && id.own.config != id.normal.config
           && id.own.executable != id.normal.executable)
    case McpChildMismatch =>
      rows(McpChildIsolation).status.Passed? <==> !(o.registrationOwned && o.bindingExact && o.childReady)
    case MappingMissing => rows(Mapping).status.Passed? && !o.mappingPresent
    case EnvelopesMissing => rows(AcceptedEnvelopes).status.Passed? && o.accepted == 0
    case DrainMismatch => rows(Drain).status.Passed? && !(o.drained && o.undelivered == 0)
    case HookCoverageMissing => rows(HookLifecycle).status.Passed? && !o.hookCoverage
    case StreamCoverageMissing => rows(SessionStream).status.Passed? && !o.streamCoverage
    case SnapshotUnobservable => r.target.Some? && SnapshotUnfounded(r.target.value, rows(NormalTargetSnapshot))
    case AfterSnapshotMissing => r.target.Some? && PassedUnseen(r.target.value, rows(NormalTargetUnchanged))
    case UnchangedContentMismatch => r.target.Some? && Misblamed(r.target.value, rows(NormalTargetUnchanged))
    case ConsentContinuation =>
      !rows(ObservationConsent).status.Passed? && rows(ObservationConsent).next != GrantExactWorktree
    case IsolationContinuation =>
      !rows(ServiceIsolation).status.Passed? && rows(ServiceIsolation).next != ProvisionIsolatedRoot
    case McpChildContinuation =>
      && !rows(McpChildIsolation).status.Passed?
      && (o.registrationOwned && o.bindingExact ==> rows(McpChildIsolation).next != RecaptureIsolatedMcpChild)
      && ((o.registrationOwned && o.bindingExact) || rows(McpChildIsolation).next != ReregisterIsolatedMcp)
    case ActivationContinuation =>
      rows(PluginActivation).reason == Some("installed_not_activated") && rows(PluginActivation).next != ListExactTarget
    case ActivationReview =>
      && rows(PluginActivation).reason in [Some("foreign"), Some("modified"), Some("ambiguous")]
      && rows(PluginActivation).next != ManualActivationReview
    case HookNotUnsupported =>
      !r.scope.hooks && exists f ::
        f in [AcceptedEnvelopes, Diagnostics, Drain, HookLifecycle, Mapping] && !rows(f).status.Unsupported?
    case StreamNotUnsupported => !r.scope.stream && !rows(SessionStream).status.Unsupported?
    case StreamUnproven => r.scope.stream && id.version != "0.148.0" && id.version != "0.150.1"
    case CapabilityNotUnsupported => false
    case OutOfScopeNotNotRun =>
      || (!r.scope.semantic && !rows(SemanticDispatch).status.NotRun?)
      || (!r.scope.semantic && !rows(SemanticProvenance).status.NotRun?)
      || (!r.scope.influence && !rows(CorrectiveInfluence).status.NotRun?)
  }

  /** No check placed from one number to another is violated. */
  ghost predicate Met(r: Report, from: nat, to: nat) {
    forall g :: from <= Place(g) < to ==> !Violated(r, g)
  }

  /** This is the first check violated from one place to another, if any is. */
  ghost predicate FirstOf(r: Report, from: nat, to: nat, fault: Option<Fault>) {
    match fault
    case None => Met(r, from, to)
    case Some(e) => from <= Place(e) < to && Violated(r, e) && Met(r, from, Place(e))
  }

  lemma {:induction false} ObservedFirst(r: Report)
    ensures FirstOf(r, 0, 12, ObservedFault(r))
  {
    hide SnapshotUnfounded, PassedUnseen, Misblamed;
    if ObservedFault(r).None? { ObservedMet(r); } else { ObservedFound(r); }
    hide *;
  }

  lemma {:induction false} ObservedMet(r: Report)
    requires ObservedFault(r).None?
    ensures Met(r, 0, 12)
  {
    hide SnapshotUnfounded, PassedUnseen, Misblamed;
  }

  lemma {:induction false} ObservedFound(r: Report)
    requires ObservedFault(r).Some?
    ensures
      var e := ObservedFault(r).value;
      Place(e) < 12 && Violated(r, e) && Met(r, 0, Place(e))
  {
    hide SnapshotUnfounded, PassedUnseen, Misblamed;
  }

  lemma {:induction false} TargetFirst(r: Report)
    ensures FirstOf(r, 12, 15, if r.target.Some? then TargetFault(r.target.value, r.rows) else None)
  {
    TargetViolations(r);
    if r.target.Some? { TargetFaultIs(r.target.value, r.rows); }
    hide SnapshotUnfounded, PassedUnseen, Misblamed, TargetFault, Violated;
    assert forall g :: 12 <= Place(g) < 15 ==>
             g == SnapshotUnobservable || g == AfterSnapshotMissing || g == UnchangedContentMismatch;
  }

  lemma {:induction false} TargetViolations(r: Report)
    ensures
      var before, after := r.rows(NormalTargetSnapshot), r.rows(NormalTargetUnchanged);
      && (Violated(r, SnapshotUnobservable) <==> r.target.Some? && SnapshotUnfounded(r.target.value, before))
      && (Violated(r, AfterSnapshotMissing) <==> r.target.Some? && PassedUnseen(r.target.value, after))
      && (Violated(r, UnchangedContentMismatch) <==> r.target.Some? && Misblamed(r.target.value, after))
  {
  }

  lemma {:induction false} TargetFaultIs(files: seq<TargetFile>, rows: Facet -> Row)
    ensures TargetFault(files, rows)
            == if SnapshotUnfounded(files, rows(NormalTargetSnapshot)) then Some(SnapshotUnobservable)
               else if PassedUnseen(files, rows(NormalTargetUnchanged)) then Some(AfterSnapshotMissing)
               else if Misblamed(files, rows(NormalTargetUnchanged)) then Some(UnchangedContentMismatch)
               else None
  {
    SnapshotRead(files, rows(NormalTargetSnapshot));
    ReasonRead(files, rows(NormalTargetUnchanged));
    hide SnapshotUnfounded, PassedUnseen, Misblamed, TargetReason, ReasonText;
  }

  lemma {:induction false} SnapshotRead(files: seq<TargetFile>, row: Row)
    ensures SnapshotUnfounded(files, row)
            <==> row.status.Passed? && exists f :: f in files && !Observable(f.before.presence)
  {
  }

  lemma {:induction false} ReasonRead(files: seq<TargetFile>, row: Row)
    ensures PassedUnseen(files, row) <==> TargetReason(files) == Some(AfterMissing) && row.status.Passed?
    ensures Misblamed(files, row) <==>
              match TargetReason(files)
              case Some(AfterMissing) => false
              case Some(change) => !row.status.Failed? || row.reason != Some(ReasonText(change))
              case None => row.reason in [Some(ReasonText(Unobservable)), Some(ReasonText(PathAndContent)),
                                          Some(ReasonText(Content)), Some(ReasonText(Moved))]
  {
    ReasonCases(files);
    hide TargetReason, Altered, Displaced, Unobserved;
  }

  lemma {:induction false} ReasonCases(files: seq<TargetFile>)
    ensures TargetReason(files) == Some(AfterMissing) <==> exists f :: f in files && f.after == None
    ensures (forall f :: f in files ==> f.after != None) ==>
              TargetReason(files)
              == if exists f :: f in files && Unobserved(f) then Some(Unobservable)
                 else if exists f :: f in files && Displaced(f) && Altered(f) then Some(PathAndContent)
                 else if exists f :: f in files && Altered(f) then Some(Content)
                 else if exists f :: f in files && Displaced(f) then Some(Moved)
                 else None
  {
    StrongestFound(files);
    forall f ensures ToldBy(f) { ChangeTold(f); }
    hide TargetReason, ChangeOf, Altered, Displaced, Unobserved;
  }

  lemma {:induction false} StrongestFound(files: seq<TargetFile>)
    ensures TargetReason(files)
            == if exists f :: f in files && ChangeOf(f) == Some(AfterMissing) then Some(AfterMissing)
               else if exists f :: f in files && ChangeOf(f) == Some(Unobservable) then Some(Unobservable)
               else if exists f :: f in files && ChangeOf(f) == Some(PathAndContent) then Some(PathAndContent)
               else if exists f :: f in files && ChangeOf(f) == Some(Content) then Some(Content)
               else if exists f :: f in files && ChangeOf(f) == Some(Moved) then Some(Moved)
               else None
  {
    var changes := set f | f in files :: ChangeOf(f);
    assert forall f :: f in files ==> ChangeOf(f) in changes;
    hide ChangeOf;
  }

  predicate ToldBy(f: TargetFile) {
    && (ChangeOf(f) == Some(AfterMissing) <==> f.after == None)
    && (f.after.Some? ==>
          && (ChangeOf(f) == Some(Unobservable) <==> Unobserved(f))
          && (ChangeOf(f) == Some(PathAndContent) <==> !Unobserved(f) && Displaced(f) && Altered(f))
          && (ChangeOf(f) == Some(Content) <==> !Unobserved(f) && !Displaced(f) && Altered(f))
          && (ChangeOf(f) == Some(Moved) <==> !Unobserved(f) && Displaced(f) && !Altered(f)))
  }

  lemma {:induction false} ChangeTold(f: TargetFile)
    ensures ToldBy(f)
  {
  }

  lemma {:induction false} ContinuationFirst(r: Report)
    ensures FirstOf(r, 15, 20, ContinuationFault(r))
  {
  }

  lemma {:induction false} ScopeFirst(r: Report)
    ensures FirstOf(r, 20, 23, ScopeFault(r))
  {
  }

  lemma {:induction false} OutOfScopeFirst(r: Report)
    requires ScopeFault(r).None?
    ensures FirstOf(r, 23, 24, FirstOutOfScope(Required(r.scope), r.rows, POSTFLIGHT))
  {
    assert forall g :: 23 <= Place(g) < 24 ==> g == OutOfScopeNotNotRun;
    OutOfScopeIs(r);
    hide Required, FirstOutOfScope, Violated;
  }

  lemma {:induction false} OutOfScopeIs(r: Report)
    requires ScopeFault(r).None?
    ensures FirstOutOfScope(Required(r.scope), r.rows, POSTFLIGHT)
            == if Violated(r, OutOfScopeNotNotRun) then Some(OutOfScopeNotNotRun) else None
  {
    hide *;
    var required := Required(r.scope);
    var found := FirstOutOfScope(required, r.rows, POSTFLIGHT);
    NeglectedSomewhere(r);
    NoneOutOfScope(required, r.rows, POSTFLIGHT);
    if found.Some? {
      SomeOutOfScope(required, r.rows, POSTFLIGHT);
      var f :| f in POSTFLIGHT && OutOfScope(required, r.rows, f) == found;
      OneOutOfScope(r, f);
    } else if Violated(r, OutOfScopeNotNotRun) {
      var f :| f in POSTFLIGHT && Neglected(r, f);
      OneOutOfScope(r, f);
    }
  }

  /** Optional work the scope does not ask for was not left undone. */
  predicate Neglected(r: Report, f: Facet) {
    && !r.rows(f).status.NotRun?
    && match f
       case SemanticDispatch => !r.scope.semantic
       case SemanticProvenance => !r.scope.semantic
       case CorrectiveInfluence => !r.scope.influence
       case _ => false
  }

  lemma {:induction false} NeglectedSomewhere(r: Report)
    ensures Violated(r, OutOfScopeNotNotRun) <==> exists f :: f in POSTFLIGHT && Neglected(r, f)
  {
    assert POSTFLIGHT[9] == SemanticDispatch && POSTFLIGHT[10] == SemanticProvenance;
    assert POSTFLIGHT[12] == CorrectiveInfluence;
    hide POSTFLIGHT;
    if Violated(r, OutOfScopeNotNotRun) {
      var f := if Neglected(r, SemanticDispatch) then SemanticDispatch
               else if Neglected(r, SemanticProvenance) then SemanticProvenance else CorrectiveInfluence;
      assert f in POSTFLIGHT && Neglected(r, f);
    }
  }

  lemma {:induction false} OneOutOfScope(r: Report, f: Facet)
    requires ScopeFault(r).None? && f in POSTFLIGHT
    ensures OutOfScope(Required(r.scope), r.rows, f) == if Neglected(r, f) then Some(OutOfScopeNotNotRun) else None
  {
    RequiredIsAsked(r.scope, f);
    hide Required;
  }

  lemma {:induction false} SomeOutOfScope(required: seq<Facet>, rows: Facet -> Row, names: seq<Facet>)
    requires FirstOutOfScope(required, rows, names).Some?
    ensures exists f :: f in names && OutOfScope(required, rows, f) == FirstOutOfScope(required, rows, names)
  {
    if OutOfScope(required, rows, names[0]).None? { SomeOutOfScope(required, rows, names[1..]); }
  }

  /**
   * A report is accepted exactly when it violates none of the checks, and refused for the first it violates. That an
   * unadvertised capability is not marked unsupported is never reported as such: an earlier check has found it.
   */
  lemma {:induction false} FirstViolation(r: Report)
    ensures Classify(r).Ok? <==> forall g :: !Violated(r, g)
    ensures Classify(r).Err? ==>
              && Violated(r, Classify(r).error)
              && forall g :: Place(g) < Place(Classify(r).error) ==> !Violated(r, g)
  {
    hide ObservedFault, TargetFault, ContinuationFault, ScopeFault, FirstOutOfScope, Aggregate, Required, With;
    ObservedFirst(r);
    TargetFirst(r);
    ContinuationFirst(r);
    ScopeFirst(r);
    if ScopeFault(r).None? { OutOfScopeFirst(r); }
    assert forall g :: Place(g) == 24 ==> !Violated(r, g);
  }

  /** Rows outside the scope say so. */
  predicate Excused(r: Report) {
    && (!r.scope.hooks ==> forall f :: f in HOOKS ==> r.rows(f).status.Unsupported?)
    && (!r.scope.stream ==> r.rows(SessionStream).status.Unsupported?)
    && (!r.scope.semantic ==> r.rows(SemanticDispatch).status.NotRun? && r.rows(SemanticProvenance).status.NotRun?)
    && (!r.scope.influence ==> r.rows(CorrectiveInfluence).status.NotRun?)
  }

  /** The observations behind every row in scope were made. */
  predicate Backed(r: Report) {
    var o, id := r.observed, r.identity;
    && o.workspaceMatches && o.consentActive && o.activationActive && o.isolated
    && o.registrationOwned && o.bindingExact && o.childReady
    && id.mode.Isolated? && id.normalMode.Ambient? && !Shared(id.own, id.normal)
    && (r.scope.hooks ==> o.mappingPresent && o.accepted > 0 && o.drained && o.undelivered == 0 && o.hookCoverage)
    && (r.scope.stream ==> o.streamCoverage && id.version in PROVEN_VERSIONS)
    && (r.target.Some? ==> forall f :: f in r.target.value ==> Held(f))
  }

  /** Passed, with nothing to explain. */
  predicate Fine(row: Row) {
    row.status.Passed? && row.reason.None?
  }

  /** A report whose rows in scope passed, with nothing to explain, and were observed to, is accepted as a full pass. */
  lemma {:induction false} FullPass(r: Report)
    requires forall f :: f in PREFLIGHT || Asks(r.scope, f) ==> Fine(r.rows(f))
    requires Excused(r) && Backed(r)
    ensures Classify(r).Ok? && Classify(r).value.full == Passed && Classify(r).value.launchAllowed
  {
    PreflightRows(r);
    PostflightRows(r);
    forall g ensures !Violated(r, g) {
      if Place(g) < 12 { NoneObserved(r, g); } else { NoneLater(r, g); }
    }
    FirstViolation(r);
    PassIff(r);
    hide *;
  }

  lemma {:induction false} PreflightRows(r: Report)
    requires forall f :: f in PREFLIGHT ==> Fine(r.rows(f))
    ensures Fine(r.rows(WorkspaceBinding)) && Fine(r.rows(ObservationConsent)) && Fine(r.rows(PluginActivation))
    ensures Fine(r.rows(ServiceIsolation)) && Fine(r.rows(McpChildIsolation))
  {
    assert PREFLIGHT[2] == ServiceIsolation && PREFLIGHT[3] == McpChildIsolation && PREFLIGHT[4] == WorkspaceBinding;
    assert PREFLIGHT[5] == ObservationConsent && PREFLIGHT[13] == PluginActivation;
  }

  lemma {:induction false} PostflightRows(r: Report)
    requires Excused(r)
    requires forall f :: Asks(r.scope, f) ==> Fine(r.rows(f))
    ensures Fine(r.rows(NormalTargetUnchanged))
    ensures !r.scope.hooks ==>
              && r.rows(Mapping).status.Unsupported? && r.rows(AcceptedEnvelopes).status.Unsupported?
              && r.rows(Drain).status.Unsupported? && r.rows(HookLifecycle).status.Unsupported?
    ensures r.scope.stream || r.rows(SessionStream).status.Unsupported?
  {
    assert Asks(r.scope, NormalTargetUnchanged);
    assert HOOKS[0] == AcceptedEnvelopes && HOOKS[2] == Drain && HOOKS[3] == HookLifecycle && HOOKS[4] == Mapping;
    hide HOOKS, Asks;
  }

  lemma {:induction false} NoneObserved(r: Report, g: Fault)
    requires Backed(r) && Place(g) < 12
    requires Fine(r.rows(WorkspaceBinding)) && Fine(r.rows(ObservationConsent)) && Fine(r.rows(PluginActivation))
    requires Fine(r.rows(ServiceIsolation)) && Fine(r.rows(McpChildIsolation))
    requires !r.scope.hooks ==>
               && r.rows(Mapping).status.Unsupported? && r.rows(AcceptedEnvelopes).status.Unsupported?
               && r.rows(Drain).status.Unsupported? && r.rows(HookLifecycle).status.Unsupported?
    requires r.scope.stream || r.rows(SessionStream).status.Unsupported?
    ensures !Violated(r, g)
  {
    hide Held, PROVEN_VERSIONS;
  }

  lemma {:induction false} NoneLater(r: Report, g: Fault)
    requires Backed(r) && Excused(r) && Place(g) >= 12
    requires Fine(r.rows(ObservationConsent)) && Fine(r.rows(PluginActivation))
    requires Fine(r.rows(ServiceIsolation)) && Fine(r.rows(McpChildIsolation)) && Fine(r.rows(NormalTargetUnchanged))
    ensures !Violated(r, g)
  {
    hide Shared;
  }
}

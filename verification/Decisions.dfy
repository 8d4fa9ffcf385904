/**
 The headless risk pipeline: one serializable transaction records an event, evaluates the session's accepted
 evidence and writes an assessment and, when the state moves, a risk event with its interventions and outbox rows.
 The hash of the accepted set is the set itself; creation order is the order of the sequences.
 */
module Decisions {
  import opened Wrappers
  import opened RiskEngine
  import opened EvidenceTable

  datatype ControlMode = Demo | ShadowMode | Production

  datatype Gate = Gate(
    productionInterventions: bool,
    phaseOPromoted: bool,
    phasePPromoted: bool,
    phaseQPromoted: bool,
    productionEnvironment: bool)

  datatype PolicyDocument =
    | InvalidPolicy
    | ValidPolicy(policy: Policy, productionActivation: bool, promotedThresholds: bool, calibrationVersion: Option<string>)

  /** What a call's ingests read and never write. */
  datatype CallContext = CallContext(
    document: PolicyDocument,
    gate: Gate,
    hasProtectedAction: bool,
    sessionModes: map<nat, EvidenceMode>)

  type HashEntry = (string, int, int, EvidenceType, int)

  datatype Assessment = Assessment(
    session: nat,
    hash: set<HashEntry>,
    outcome: Outcome,
    priorState: RiskState,
    effectiveState: RiskState,
    transitioned: bool,
    productionEligible: bool,
    reasonCode: string)

  datatype RiskEvent = RiskEvent(
    sequence: nat,
    session: nat,
    assessment: nat,
    mode: ControlMode,
    priorState: RiskState,
    state: RiskState)

  datatype Intervention = Intervention(eventSequence: nat, interventionType: InterventionType, mode: ControlMode)

  datatype AlertKind = DashboardRiskEventCreated | RiskStateChanged | InterventionRequired

  datatype Alert = Alert(eventSequence: nat, kind: AlertKind, intervention: Option<InterventionType>, mode: ControlMode)

  datatype Store = Store(
    rows: seq<EvidenceRow>,
    assessments: seq<Assessment>,
    events: seq<RiskEvent>,
    interventions: seq<Intervention>,
    alerts: seq<Alert>)

  const EMPTY := Store([], [], [], [], [])

  datatype Response =
    | Suppressed(status: Acceptance, reasonCode: string)
    | Assessed(assessment: nat)

  datatype Ingested = Ingested(response: Result<Response, string>, store: Store)

  /** The hash of a session's accepted set: one entry per row, whatever the order. */
  function AcceptedHash(rows: seq<EvidenceRow>, session: nat): set<HashEntry> {
    set r | r in rows && r.session == session && r.status == Accepted ::
      (r.evidence.id, r.evidence.eventSequence, r.evidence.windowSequence, r.evidence.evidenceType, r.evidence.revision)
  }

  function FindAssessment(assessments: seq<Assessment>, session: nat, hash: set<HashEntry>): (r: Option<nat>)
    ensures r.Some? ==> r.value < |assessments| && assessments[r.value].session == session
                        && assessments[r.value].hash == hash
    ensures r.None? ==> forall a :: a in assessments ==> !(a.session == session && a.hash == hash)
  {
    if assessments == [] then None
    else if assessments[|assessments| - 1].session == session && assessments[|assessments| - 1].hash == hash
    then Some(|assessments| - 1)
    else FindAssessment(assessments[..|assessments| - 1], session, hash)
  }

  /** The effective state of the session's newest assessment, or the initial state. */
  function CurrentState(assessments: seq<Assessment>, session: nat): RiskState {
    if assessments == [] then Unverified
    else if assessments[|assessments| - 1].session == session then assessments[|assessments| - 1].effectiveState
    else CurrentState(assessments[..|assessments| - 1], session)
  }

  function MaximumSequence(events: seq<RiskEvent>): (m: nat)
    ensures forall e :: e in events ==> e.sequence <= m
  {
    if events == [] then 0
    else
      var m := MaximumSequence(events[..|events| - 1]);
      if events[|events| - 1].sequence > m then events[|events| - 1].sequence else m
  }

  predicate ProductionEligible(ctx: CallContext, evidenceMode: EvidenceMode, v: Verdict)
    requires ctx.document.ValidPolicy?
  {
    && ctx.gate.productionInterventions && ctx.gate.phaseOPromoted && ctx.gate.phasePPromoted && ctx.gate.phaseQPromoted
    && ctx.document.productionActivation && ctx.document.promotedThresholds
    && evidenceMode == Calibrated
    && v.outcome != InsufficientOutcome
    && v.allScoresCalibrated && v.allModelsActiveAndTraceable
    && ctx.document.calibrationVersion.Some? && v.calibrationVersions == {ctx.document.calibrationVersion.value}
  }

  function ControlModeOf(evidenceMode: EvidenceMode, productionEligible: bool): ControlMode {
    if productionEligible then Production
    else if evidenceMode == Simulated then Demo else ShadowMode
  }

  /** assertModeAllowed: the two gates that abort the whole ingest. */
  predicate ModeAllowed(gate: Gate, mode: ControlMode, productionEligible: bool) {
    && (mode == Production ==>
          && productionEligible
          && gate.productionInterventions && gate.phaseOPromoted && gate.phasePPromoted && gate.phaseQPromoted)
    && (gate.productionEnvironment ==> mode == Production)
  }

  /** The proposed interventions that can be carried out for this call in this mode. */
  function InterventionTypes(mode: ControlMode, proposed: seq<InterventionType>, hasProtectedAction: bool): seq<InterventionType> {
    if mode == ShadowMode || proposed == [] then []
    else
      var rest := InterventionTypes(mode, proposed[..|proposed| - 1], hasProtectedAction);
      var last := proposed[|proposed| - 1];
      if last == HoldProtectedAction && !hasProtectedAction then rest else rest + [last]
  }

  /** Nothing in shadow mode; otherwise every proposed intervention in its order, but holds without an action. */
  lemma {:induction false} InterventionTypesExact(mode: ControlMode, proposed: seq<InterventionType>, hasProtectedAction: bool, t: InterventionType)
    ensures t in InterventionTypes(mode, proposed, hasProtectedAction) <==>
      mode != ShadowMode && t in proposed && (t == HoldProtectedAction ==> hasProtectedAction)
  {
    if proposed != [] {
      InterventionTypesExact(mode, proposed[..|proposed| - 1], hasProtectedAction, t);
      assert proposed == proposed[..|proposed| - 1] + [proposed[|proposed| - 1]];
    }
  }

  function InterventionRows(n: nat, mode: ControlMode, types: seq<InterventionType>): seq<Intervention> {
    if types == [] then []
    else InterventionRows(n, mode, types[..|types| - 1]) + [Intervention(n, types[|types| - 1], mode)]
  }

  function InterventionAlerts(n: nat, mode: ControlMode, types: seq<InterventionType>): seq<Alert> {
    if types == [] then []
    else InterventionAlerts(n, mode, types[..|types| - 1])
         + [Alert(n, InterventionRequired, Some(types[|types| - 1]), mode)]
  }

  function AlertRows(n: nat, mode: ControlMode, types: seq<InterventionType>): seq<Alert> {
    [Alert(n, DashboardRiskEventCreated, None, mode)]
    + if mode == ShadowMode then []
      else [Alert(n, RiskStateChanged, None, mode)] + InterventionAlerts(n, mode, types)
  }

  /** Everything recordDecision writes once the verdict is known. */
  function WriteDecision(ctx: CallContext, store: Store, session: nat, v: Verdict): Ingested
    requires ctx.document.ValidPolicy? && session in ctx.sessionModes
  {
    var hash := AcceptedHash(store.rows, session);
    var replay := FindAssessment(store.assessments, session, hash);
    if replay.Some? then Ingested(Ok(Assessed(replay.value)), store)
    else
      var priorState := CurrentState(store.assessments, session);
      var transitioned := priorState != v.effectiveState;
      var eligible := ProductionEligible(ctx, ctx.sessionModes[session], v);
      var mode := ControlModeOf(ctx.sessionModes[session], eligible);
      if !ModeAllowed(ctx.gate, mode, eligible) then Ingested(Err("CONTROL_MODE_PROHIBITED"), store)
      else
        var a := Assessment(session, hash, v.outcome, priorState, v.effectiveState, transitioned, eligible, v.reasonCode);
        Ingested(Ok(Assessed(|store.assessments|)),
                 Publish(store, a, mode, InterventionTypes(mode, v.proposedInterventions, ctx.hasProtectedAction)))
  }

  /** The assessment, and the event with its rows when the assessment announces a change. */
  function Publish(store: Store, a: Assessment, mode: ControlMode, types: seq<InterventionType>): Store {
    if !a.transitioned || a.outcome == InsufficientOutcome
    then store.(assessments := store.assessments + [a])
    else
      var n := MaximumSequence(store.events) + 1;
      Store(store.rows,
            store.assessments + [a],
            store.events + [RiskEvent(n, a.session, |store.assessments|, mode, a.priorState, a.effectiveState)],
            store.interventions + InterventionRows(n, mode, types),
            store.alerts + AlertRows(n, mode, types))
  }

  /** One transaction of ingestAcceptedEvidence; an error rolls everything back. */
  ghost function Ingest(ctx: CallContext, store: Store, input: EvidenceInput): Ingested {
    var recorded := Record(store.rows, input, true);
    var after := store.(rows := recorded.rows);
    if recorded.row.Err? then Ingested(Err(recorded.row.error), store)
    else if recorded.row.value.status != Accepted then
      Ingested(Ok(Suppressed(recorded.row.value.status, "EVIDENCE_NOT_ACCEPTED_FOR_RISK")), after)
    else if input.session !in ctx.sessionModes then Ingested(Err("ANALYSIS_SESSION_MISSING"), store)
    else if ctx.document.InvalidPolicy? then Ingested(Ok(Suppressed(Accepted, "RISK_POLICY_INVALID")), after)
    else
      var verdict := Evaluate(AcceptedEvidence(recorded.rows, input.session), ctx.document.policy);
      if verdict.Err? then Ingested(Err(verdict.error), store)
      else
        var written := WriteDecision(ctx, after, input.session, verdict.value);
        if written.response.Err? then Ingested(written.response, store) else written
  }

  method LoadAccepted(rows: seq<EvidenceRow>, session: nat) returns (accepted: seq<Evidence>)
    ensures accepted == AcceptedEvidence(rows, session)
  {
    accepted := [];
    for i := 0 to |rows|
      invariant accepted == AcceptedEvidence(rows[..i], session)
    {
      assert rows[..i + 1][..i] == rows[..i];
      if rows[i].session == session && rows[i].status == Accepted {
        accepted := accepted + [rows[i].evidence];
      }
    }
    assert rows[..|rows|] == rows;
  }

  class HeadlessRiskPipeline {
    const ctx: CallContext
    const evidence: EvidenceRepository
    var assessments: seq<Assessment>
    var events: seq<RiskEvent>
    var interventions: seq<Intervention>
    var alerts: seq<Alert>

    constructor (ctx: CallContext, evidence: EvidenceRepository)
      ensures this.ctx == ctx && this.evidence == evidence
      ensures assessments == [] && events == [] && interventions == [] && alerts == []
    {
      this.ctx := ctx;
      this.evidence := evidence;
      assessments, events, interventions, alerts := [], [], [], [];
    }

    ghost function Contents(): Store
      reads this, evidence
    {
      Store(evidence.rows, assessments, events, interventions, alerts)
    }

    /** recordDecision: everything but the roll back. */
    method RecordDecision(session: nat) returns (response: Result<Response, string>)
      requires ctx.document.ValidPolicy? && session in ctx.sessionModes
      modifies this
      ensures evidence.rows == old(evidence.rows)
      ensures var v := Evaluate(AcceptedEvidence(old(evidence.rows), session), ctx.document.policy);
        if v.Err? then response == Err(v.error) && Contents() == old(Contents())
        else Ingested(response, Contents()) == WriteDecision(ctx, old(Contents()), session, v.value)
    {
      var accepted := LoadAccepted(evidence.rows, session);
      var evaluated := EvaluateRiskEvidence(accepted, ctx.document.policy);
      if evaluated.Err? {
        return Err(evaluated.error);
      }
      response := PersistDecision(session, evaluated.value);
    }

    /** The part of recordDecision that follows the evaluation. */
    method PersistDecision(session: nat, v: Verdict) returns (response: Result<Response, string>)
      requires ctx.document.ValidPolicy? && session in ctx.sessionModes
      modifies this
      ensures evidence.rows == old(evidence.rows)
      ensures Ingested(response, Contents()) == WriteDecision(ctx, old(Contents()), session, v)
    {
      var hash := AcceptedHash(evidence.rows, session);
      var replay := FindAssessment(assessments, session, hash);
      if replay.Some? {
        return Ok(Assessed(replay.value));
      }
      var priorState := CurrentState(assessments, session);
      var transitioned := priorState != v.effectiveState;
      var eligible := ProductionEligible(ctx, ctx.sessionModes[session], v);
      var mode := ControlModeOf(ctx.sessionModes[session], eligible);
      if !ModeAllowed(ctx.gate, mode, eligible) {
        return Err("CONTROL_MODE_PROHIBITED");
      }
      response := Ok(Assessed(|assessments|));
      Announce(Assessment(session, hash, v.outcome, priorState, v.effectiveState, transitioned, eligible, v.reasonCode),
               mode, InterventionTypes(mode, v.proposedInterventions, ctx.hasProtectedAction));
    }

    /** The rows recordDecision creates. */
    method Announce(a: Assessment, mode: ControlMode, types: seq<InterventionType>)
      modifies this
      ensures evidence.rows == old(evidence.rows)
      ensures Contents() == Publish(old(Contents()), a, mode, types)
    {
      var id := |assessments|;
      assessments := assessments + [a];
      if !a.transitioned || a.outcome == InsufficientOutcome {
        return;
      }
      var n := MaximumSequence(events) + 1;
      events := events + [RiskEvent(n, a.session, id, mode, a.priorState, a.effectiveState)];
      interventions := interventions + InterventionRows(n, mode, types);
      alerts := alerts + AlertRows(n, mode, types);
    }

    /** One attempt: the body of the transaction, undone when it fails. */
    method Attempt(input: EvidenceInput) returns (response: Result<Response, string>)
      requires evidence.indexed
      modifies this, evidence
      ensures Ingested(response, Contents()) == Ingest(ctx, old(Contents()), input)
    {
      var before := evidence.rows;
      var row := evidence.RecordWithClient(input);
      if row.Err? {
        response := Err(row.error);
      } else if row.value.status != Accepted {
        response := Ok(Suppressed(row.value.status, "EVIDENCE_NOT_ACCEPTED_FOR_RISK"));
      } else if input.session !in ctx.sessionModes {
        response := Err("ANALYSIS_SESSION_MISSING");
      } else if ctx.document.InvalidPolicy? {
        response := Ok(Suppressed(Accepted, "RISK_POLICY_INVALID"));
      } else {
        response := RecordDecision(input.session);
      }
      if response.Err? {
        evidence.rows := before;
      }
    }

    /** Up to three attempts. `conflicts` says which of them the database aborts for a concurrent write; an
        aborted attempt leaves no trace. */
    method IngestAcceptedEvidence(input: EvidenceInput, conflicts: seq<bool>) returns (response: Result<Response, string>)
      requires |conflicts| == 3 && evidence.indexed
      modifies this, evidence
      ensures var once := Ingest(ctx, old(Contents()), input);
        if conflicts == [true, true, true] || (conflicts[2] && once.response == Err(UNIQUE_VIOLATION))
        then response == Err("P2034") && Contents() == old(Contents())
        else Ingested(response, Contents()) == once
    {
      ghost var once := Ingest(ctx, Contents(), input);
      var attempt := 0;
      response := Err("P2034");
      while attempt < 3
        invariant attempt <= 3
        invariant Contents() == old(Contents())
        invariant forall i :: 0 <= i < attempt ==> conflicts[i] || once.response == Err(UNIQUE_VIOLATION)
        invariant attempt == 3 ==> conflicts[2] && response == Err("P2034")
      {
        if conflicts[attempt] {
          response := Err("P2034");
        } else {
          response := Attempt(input);
          if response != Err(UNIQUE_VIOLATION) || attempt == 2 {
            return;
          }
          RefusedUnchanged(ctx, old(Contents()), input);
        }
        attempt := attempt + 1;
      }
    }
  }

  /** A refused ingest leaves no trace. */
  lemma RefusedUnchanged(ctx: CallContext, store: Store, input: EvidenceInput)
    requires Ingest(ctx, store, input).response.Err?
    ensures Ingest(ctx, store, input).store == store
  {}
}

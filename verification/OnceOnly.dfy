/**
 What holds along every run of ingests: one assessment per accepted set, linked prior states, numbered risk events,
 exact outbox rows, and redelivery without effect.
 */
module OnceOnly {
  import opened Wrappers
  import opened RiskEngine
  import opened EvidenceTable
  import opened Decisions
  import Hysteresis

  ghost function Process(ctx: CallContext, inputs: seq<EvidenceInput>): Store {
    if inputs == [] then EMPTY
    else Ingest(ctx, Process(ctx, inputs[..|inputs| - 1]), inputs[|inputs| - 1]).store
  }

  // ---------------------------------------------------------------- the invariant

  ghost predicate AssessedOnce(assessments: seq<Assessment>) {
    forall i, j :: 0 <= i < j < |assessments| ==>
      !(assessments[i].session == assessments[j].session && assessments[i].hash == assessments[j].hash)
  }

  /** In creation order, each assessment of a session starts from the state the previous one left. */
  ghost predicate Chained(assessments: seq<Assessment>) {
    forall i :: 0 <= i < |assessments| ==>
      && assessments[i].priorState == CurrentState(assessments[..i], assessments[i].session)
      && assessments[i].transitioned == (assessments[i].priorState != assessments[i].effectiveState)
  }

  predicate Announced(a: Assessment) {
    a.transitioned && a.outcome != InsufficientOutcome
  }

  /** The positions of the assessments that must have a risk event. */
  ghost function Announcing(assessments: seq<Assessment>): seq<nat> {
    if assessments == [] then []
    else
      var rest := Announcing(assessments[..|assessments| - 1]);
      if Announced(assessments[|assessments| - 1]) then rest + [|assessments| - 1] else rest
  }

  ghost predicate Announces(e: RiskEvent, assessments: seq<Assessment>, i: nat) {
    && i < |assessments|
    && e.assessment == i
    && e.session == assessments[i].session
    && e.priorState == assessments[i].priorState
    && e.state == assessments[i].effectiveState
  }

  /** The events are numbered 1, 2, ... and are exactly the announcements of the assessments, in order. */
  ghost predicate EventsExact(assessments: seq<Assessment>, events: seq<RiskEvent>) {
    && |events| == |Announcing(assessments)|
    && forall k :: 0 <= k < |events| ==>
         events[k].sequence == k + 1 && Announces(events[k], assessments, Announcing(assessments)[k])
  }

  ghost function CountAlerts(alerts: seq<Alert>, n: nat): nat {
    if alerts == [] then 0
    else CountAlerts(alerts[..|alerts| - 1], n) + if alerts[|alerts| - 1].eventSequence == n then 1 else 0
  }

  ghost function CountInterventions(interventions: seq<Intervention>, n: nat): nat {
    if interventions == [] then 0
    else CountInterventions(interventions[..|interventions| - 1], n)
         + if interventions[|interventions| - 1].eventSequence == n then 1 else 0
  }

  /** One outbox row for an event in shadow mode, two and one per intervention otherwise. */
  ghost predicate RowsExact(e: RiskEvent, alerts: seq<Alert>, interventions: seq<Intervention>) {
    var n := CountInterventions(interventions, e.sequence);
    if e.mode == ShadowMode
    then CountAlerts(alerts, e.sequence) == 1 && n == 0
    else CountAlerts(alerts, e.sequence) == 2 + n
  }

  ghost predicate OutboxExact(events: seq<RiskEvent>, interventions: seq<Intervention>, alerts: seq<Alert>) {
    && (forall a :: a in alerts ==> a.eventSequence <= |events|)
    && (forall i :: i in interventions ==> i.eventSequence <= |events|)
    && (forall e :: e in events ==> e.sequence <= |events|)
    && forall e :: e in events ==> RowsExact(e, alerts, interventions)
  }

  /** Every non-empty accepted set has been assessed. */
  ghost predicate CurrentAssessed(store: Store) {
    forall session :: AcceptedHash(store.rows, session) != {} ==>
      FindAssessment(store.assessments, session, AcceptedHash(store.rows, session)).Some?
  }

  ghost predicate Consistent(ctx: CallContext, store: Store) {
    && AssessedOnce(store.assessments)
    && Chained(store.assessments)
    && EventsExact(store.assessments, store.events)
    && OutboxExact(store.events, store.interventions, store.alerts)
    && (ctx.document.ValidPolicy? ==> CurrentAssessed(store))
  }

  // ---------------------------------------------------------------- counting

  lemma CountAlertsAppend(a: seq<Alert>, b: seq<Alert>, n: nat)
    ensures CountAlerts(a + b, n) == CountAlerts(a, n) + CountAlerts(b, n)
  {
    if b == [] {
      assert a + b == a;
    } else {
      assert (a + b)[..|a + b| - 1] == a + b[..|b| - 1];
      CountAlertsAppend(a, b[..|b| - 1], n);
    }
  }

  lemma CountInterventionsAppend(a: seq<Intervention>, b: seq<Intervention>, n: nat)
    ensures CountInterventions(a + b, n) == CountInterventions(a, n) + CountInterventions(b, n)
  {
    if b == [] {
      assert a + b == a;
    } else {
      assert (a + b)[..|a + b| - 1] == a + b[..|b| - 1];
      CountInterventionsAppend(a, b[..|b| - 1], n);
    }
  }

  lemma AlertsAbsent(a: seq<Alert>, n: nat)
    requires forall x :: x in a ==> x.eventSequence != n
    ensures CountAlerts(a, n) == 0
  {
    if a != [] {
      assert a[|a| - 1] in a;
      AlertsAbsent(a[..|a| - 1], n);
    }
  }

  lemma InterventionsAbsent(a: seq<Intervention>, n: nat)
    requires forall x :: x in a ==> x.eventSequence != n
    ensures CountInterventions(a, n) == 0
  {
    if a != [] {
      assert a[|a| - 1] in a;
      InterventionsAbsent(a[..|a| - 1], n);
    }
  }

  lemma RowsOfEvent(n: nat, mode: ControlMode, types: seq<InterventionType>)
    ensures CountInterventions(InterventionRows(n, mode, types), n) == |types|
    ensures CountAlerts(InterventionAlerts(n, mode, types), n) == |types|
    ensures forall i :: i in InterventionRows(n, mode, types) ==> i.eventSequence == n
    ensures forall a :: a in InterventionAlerts(n, mode, types) ==> a.eventSequence == n
  {
    if types != [] {
      RowsOfEvent(n, mode, types[..|types| - 1]);
      CountAlertsAppend(InterventionAlerts(n, mode, types[..|types| - 1]),
                        [Alert(n, InterventionRequired, Some(types[|types| - 1]), mode)], n);
      CountInterventionsAppend(InterventionRows(n, mode, types[..|types| - 1]),
                               [Intervention(n, types[|types| - 1], mode)], n);
    }
  }

  lemma AlertRowsOfEvent(n: nat, mode: ControlMode, types: seq<InterventionType>)
    ensures CountAlerts(AlertRows(n, mode, types), n) == if mode == ShadowMode then 1 else 2 + |types|
    ensures forall a :: a in AlertRows(n, mode, types) ==> a.eventSequence == n
  {
    var dashboard, changed := [Alert(n, DashboardRiskEventCreated, None, mode)], [Alert(n, RiskStateChanged, None, mode)];
    RowsOfEvent(n, mode, types);
    CountAlertsAppend(changed, InterventionAlerts(n, mode, types), n);
    CountAlertsAppend(dashboard, changed + InterventionAlerts(n, mode, types), n);
    assert CountAlerts(dashboard, n) == 1 && CountAlerts(changed, n) == 1;
  }

  // ---------------------------------------------------------------- one decision keeps the invariant

  lemma NumberedMaximum(events: seq<RiskEvent>)
    requires forall k :: 0 <= k < |events| ==> events[k].sequence == k + 1
    ensures MaximumSequence(events) == |events|
  {
    if events != [] {
      NumberedMaximum(events[..|events| - 1]);
    }
  }

  lemma ChainedAppend(assessments: seq<Assessment>, a: Assessment)
    requires Chained(assessments)
    requires FollowsFrom(assessments, a, a.session)
    ensures Chained(assessments + [a])
  {
    var after := assessments + [a];
    forall i | 0 <= i < |after|
      ensures after[i].priorState == CurrentState(after[..i], after[i].session)
      ensures after[i].transitioned == (after[i].priorState != after[i].effectiveState)
    {
      if i < |assessments| {
        assert after[..i] == assessments[..i];
      } else {
        assert after[..i] == assessments;
      }
    }
  }

  lemma AnnouncingAppend(assessments: seq<Assessment>, a: Assessment)
    ensures Announcing(assessments + [a])
         == Announcing(assessments) + if Announced(a) then [|assessments|] else []
    ensures forall k :: 0 <= k < |Announcing(assessments)| ==> Announcing(assessments)[k] < |assessments|
  {
    assert (assessments + [a])[..|assessments|] == assessments;
    if assessments != [] {
      AnnouncingAppend(assessments[..|assessments| - 1], assessments[|assessments| - 1]);
      assert assessments == assessments[..|assessments| - 1] + [assessments[|assessments| - 1]];
    }
  }

  lemma EventsAppend(assessments: seq<Assessment>, events: seq<RiskEvent>, a: Assessment, e: RiskEvent)
    requires EventsExact(assessments, events)
    requires e.sequence == |events| + 1 && Announces(e, assessments + [a], |assessments|)
    ensures EventsExact(assessments + [a], if Announced(a) then events + [e] else events)
  {
    AnnouncingAppend(assessments, a);
  }

  lemma OutboxAppend(events: seq<RiskEvent>, interventions: seq<Intervention>, alerts: seq<Alert>,
                     e: RiskEvent, types: seq<InterventionType>)
    requires OutboxExact(events, interventions, alerts) && e.sequence == |events| + 1
    requires e.mode == ShadowMode ==> types == []
    ensures OutboxExact(events + [e], interventions + InterventionRows(e.sequence, e.mode, types),
                        alerts + AlertRows(e.sequence, e.mode, types))
  {
    var rows, newAlerts := InterventionRows(e.sequence, e.mode, types), AlertRows(e.sequence, e.mode, types);
    RowsOfEvent(e.sequence, e.mode, types);
    AlertRowsOfEvent(e.sequence, e.mode, types);
    forall x | x in events + [e] ensures RowsExact(x, alerts + newAlerts, interventions + rows) {
      if x in events {
        OldRowsExact(x, alerts, newAlerts, interventions, rows);
      } else {
        NewRowsExact(e, alerts, interventions, types);
      }
    }
  }

  lemma OldRowsExact(x: RiskEvent, alerts: seq<Alert>, newAlerts: seq<Alert>,
                     interventions: seq<Intervention>, newInterventions: seq<Intervention>)
    requires RowsExact(x, alerts, interventions)
    requires forall a :: a in newAlerts ==> a.eventSequence != x.sequence
    requires forall i :: i in newInterventions ==> i.eventSequence != x.sequence
    ensures RowsExact(x, alerts + newAlerts, interventions + newInterventions)
  {
    AlertsAbsent(newAlerts, x.sequence);
    InterventionsAbsent(newInterventions, x.sequence);
    CountAlertsAppend(alerts, newAlerts, x.sequence);
    CountInterventionsAppend(interventions, newInterventions, x.sequence);
  }

  lemma NewRowsExact(e: RiskEvent, alerts: seq<Alert>, interventions: seq<Intervention>, types: seq<InterventionType>)
    requires e.mode == ShadowMode ==> types == []
    requires forall a :: a in alerts ==> a.eventSequence != e.sequence
    requires forall i :: i in interventions ==> i.eventSequence != e.sequence
    ensures RowsExact(e, alerts + AlertRows(e.sequence, e.mode, types),
                         interventions + InterventionRows(e.sequence, e.mode, types))
  {
    RowsOfEvent(e.sequence, e.mode, types);
    AlertRowsOfEvent(e.sequence, e.mode, types);
    AlertsAbsent(alerts, e.sequence);
    InterventionsAbsent(interventions, e.sequence);
    CountAlertsAppend(alerts, AlertRows(e.sequence, e.mode, types), e.sequence);
    CountInterventionsAppend(interventions, InterventionRows(e.sequence, e.mode, types), e.sequence);
  }

  lemma OnceAppend(assessments: seq<Assessment>, a: Assessment)
    requires AssessedOnce(assessments) && FindAssessment(assessments, a.session, a.hash) == None
    ensures AssessedOnce(assessments + [a])
    ensures FindAssessment(assessments + [a], a.session, a.hash) == Some(|assessments|)
    ensures forall session, hash :: FindAssessment(assessments, session, hash).Some? ==>
      FindAssessment(assessments + [a], session, hash).Some?
  {
    assert (assessments + [a])[..|assessments|] == assessments;
    forall i | 0 <= i < |assessments| ensures !(assessments[i].session == a.session && assessments[i].hash == a.hash) {
      assert assessments[i] in assessments;
    }
  }

  /** Everything but CurrentAssessed, which recording may break for the session and the decision restores. */
  ghost predicate Written(store: Store) {
    && AssessedOnce(store.assessments)
    && Chained(store.assessments)
    && EventsExact(store.assessments, store.events)
    && OutboxExact(store.events, store.interventions, store.alerts)
  }

  lemma WriteKeeps(ctx: CallContext, store: Store, session: nat, v: Verdict)
    requires ctx.document.ValidPolicy? && session in ctx.sessionModes && Written(store)
    ensures var w := WriteDecision(ctx, store, session, v);
      && Written(w.store)
      && w.store.rows == store.rows
      && (w.response.Ok? ==> FindAssessment(w.store.assessments, session, AcceptedHash(store.rows, session)).Some?)
      && forall s, h :: FindAssessment(store.assessments, s, h).Some? ==> FindAssessment(w.store.assessments, s, h).Some?
  {
    if WriteDecision(ctx, store, session, v).store != store {
      var a, mode, types := WrittenAssessment(ctx, store, session, v);
      PublishKeeps(store, a, mode, types);
    }
  }

  lemma PublishKeeps(store: Store, a: Assessment, mode: ControlMode, types: seq<InterventionType>)
    requires Written(store)
    requires FindAssessment(store.assessments, a.session, a.hash) == None
    requires FollowsFrom(store.assessments, a, a.session)
    requires mode == ShadowMode ==> types == []
    ensures var after := Publish(store, a, mode, types);
      && Written(after)
      && FindAssessment(after.assessments, a.session, a.hash).Some?
      && forall s, h :: FindAssessment(store.assessments, s, h).Some? ==> FindAssessment(after.assessments, s, h).Some?
  {
    OnceAppend(store.assessments, a);
    ChainedAppend(store.assessments, a);
    PublishAnnounces(store, a, mode, types);
    var after := Publish(store, a, mode, types);
    assert after.assessments == store.assessments + [a];
    assert Written(after);
  }

  lemma PublishAnnounces(store: Store, a: Assessment, mode: ControlMode, types: seq<InterventionType>)
    requires EventsExact(store.assessments, store.events)
    requires OutboxExact(store.events, store.interventions, store.alerts)
    requires mode == ShadowMode ==> types == []
    ensures var after := Publish(store, a, mode, types);
      EventsExact(after.assessments, after.events) && OutboxExact(after.events, after.interventions, after.alerts)
  {
    NumberedMaximum(store.events);
    var e := RiskEvent(|store.events| + 1, a.session, |store.assessments|, mode, a.priorState, a.effectiveState);
    EventsAppend(store.assessments, store.events, a, e);
    if Announced(a) {
      OutboxAppend(store.events, store.interventions, store.alerts, e, types);
    }
  }

  /** Recording changes no accepted set but, when it accepts a new event, that of the event's session. */
  lemma RecordAccepted(rows: seq<EvidenceRow>, input: EvidenceInput, session: nat)
    ensures var r := Record(rows, input, true);
      session != input.session || r.row.Err? || r.row.value.status != Accepted
      ==> AcceptedHash(r.rows, session) == AcceptedHash(rows, session)
    ensures var r := Record(rows, input, true);
      r.row.Ok? && r.row.value.status == Accepted ==> r.row.value in r.rows && r.row.value.session == input.session
  {
    var r := Record(rows, input, true);
    var existing := FindKey(rows, input.evidence.id);
    if r.rows != rows && (session != input.session || r.row.value.status != Accepted) {
      var latest := LatestAccepted(rows, input);
      forall q ensures q in r.rows && q.session == session && q.status == Accepted
                   <==> q in rows && q.session == session && q.status == Accepted
      {
        if q in rows {
          var k :| 0 <= k < |rows| && rows[k] == q;
          assert q.session == session && q.status == Accepted ==> r.rows[k] == q;
        }
      }
    } else if r.rows != rows {
      assert r.rows[|r.rows| - 1] == r.row.value;
    }
  }

  lemma {:induction false} IngestKeeps(ctx: CallContext, store: Store, input: EvidenceInput)
    requires Consistent(ctx, store)
    ensures Consistent(ctx, Ingest(ctx, store, input).store)
  {
    var recorded := Record(store.rows, input, true);
    var after := store.(rows := recorded.rows);
    var out := Ingest(ctx, store, input);
    forall session ensures session != input.session || recorded.row.Err? || recorded.row.value.status != Accepted
      ==> AcceptedHash(recorded.rows, session) == AcceptedHash(store.rows, session)
    {
      RecordAccepted(store.rows, input, session);
    }
    if recorded.row.Ok? && recorded.row.value.status == Accepted && input.session in ctx.sessionModes
       && ctx.document.ValidPolicy? {
      var verdict := Evaluate(AcceptedEvidence(recorded.rows, input.session), ctx.document.policy);
      if verdict.Ok? {
        WriteKeeps(ctx, after, input.session, verdict.value);
      }
    }
  }

  // ---------------------------------------------------------------- over whole runs

  /** Once-only decisions, for every sequence of ingests of a call. */
  lemma {:induction false} DecisionsConsistent(ctx: CallContext, inputs: seq<EvidenceInput>)
    ensures Consistent(ctx, Process(ctx, inputs))
  {
    if inputs != [] {
      DecisionsConsistent(ctx, inputs[..|inputs| - 1]);
      IngestKeeps(ctx, Process(ctx, inputs[..|inputs| - 1]), inputs[|inputs| - 1]);
    }
  }

  /** While the policy parses, the session's accepted set has exactly one assessment after every ingest. */
  lemma ExactlyOneAssessment(ctx: CallContext, inputs: seq<EvidenceInput>, session: nat)
    requires ctx.document.ValidPolicy?
    ensures var store := Process(ctx, inputs);
      var hash := AcceptedHash(store.rows, session);
      var found := FindAssessment(store.assessments, session, hash);
      hash != {} ==>
        && found.Some?
        && (forall j :: 0 <= j < |store.assessments| ==>
              (store.assessments[j].session == session && store.assessments[j].hash == hash <==> j == found.value))
  {
    DecisionsConsistent(ctx, inputs);
  }

  /** Presenting a known key again adds no row to any table, whatever it answers. */
  lemma RedeliveryAddsNothing(ctx: CallContext, inputs: seq<EvidenceInput>, input: EvidenceInput)
    requires FindKey(Process(ctx, inputs).rows, input.evidence.id).Some?
    ensures Ingest(ctx, Process(ctx, inputs), input).store == Process(ctx, inputs)
  {
    DecisionsConsistent(ctx, inputs);
    var store := Process(ctx, inputs);
    assert Record(store.rows, input, true).rows == store.rows;
    var v := IngestCases(ctx, store, input);
    if v.Some? {
      AcceptedAssessed(ctx, store, input);
    }
  }

  /** When the answer to a known key is an accepted row, its session's set has been assessed. */
  lemma AcceptedAssessed(ctx: CallContext, store: Store, input: EvidenceInput)
    requires CurrentAssessed(store) && Accepts(store.rows, input)
    requires Record(store.rows, input, true).rows == store.rows
    ensures FindAssessment(store.assessments, input.session, AcceptedHash(store.rows, input.session)).Some?
  {
    RecordAccepted(store.rows, input, input.session);
    var r := Record(store.rows, input, true).row.value;
    assert (r.evidence.id, r.evidence.eventSequence, r.evidence.windowSequence, r.evidence.evidenceType, r.evidence.revision)
           in AcceptedHash(store.rows, input.session);
  }

  // ---------------------------------------------------------------- transitions nobody is told about

  /** The state the session's newest risk event announced. */
  ghost function AnnouncedState(events: seq<RiskEvent>, session: nat): RiskState {
    if events == [] then Unverified
    else if events[|events| - 1].session == session then events[|events| - 1].state
    else AnnouncedState(events[..|events| - 1], session)
  }

  /** Consumers of the event stream know the state the assessments hold. */
  ghost predicate Tracking(store: Store, session: nat) {
    AnnouncedState(store.events, session) == CurrentState(store.assessments, session)
  }

  /** An assessment that moves the state while the newest window is insufficient: no event says so. */
  predicate Silent(a: Assessment) {
    a.transitioned && a.outcome == InsufficientOutcome
  }

  /** A decision changes who knows what only by moving the session's state, and then by whether it says so. */
  lemma PublishTracks(store: Store, a: Assessment, mode: ControlMode, types: seq<InterventionType>, session: nat)
    requires FollowsFrom(store.assessments, a, a.session)
    ensures var after := Publish(store, a, mode, types);
      Tracking(after, session) <==>
        if a.session == session && a.transitioned
        then Announced(a) || a.effectiveState == AnnouncedState(store.events, session)
        else Tracking(store, session)
  {
    var after := Publish(store, a, mode, types);
    assert after.assessments[..|store.assessments|] == store.assessments;
    if Announced(a) {
      assert after.events[..|store.events|] == store.events;
    }
  }

  /** The assessment belongs to the session and starts from its current state. */
  ghost predicate FollowsFrom(assessments: seq<Assessment>, a: Assessment, session: nat) {
    && a.session == session
    && a.priorState == CurrentState(assessments, session)
    && a.transitioned == (a.priorState != a.effectiveState)
  }

  ghost predicate Accepts(rows: seq<EvidenceRow>, input: EvidenceInput) {
    var r := Record(rows, input, true).row;
    r.Ok? && r.value.status == Accepted
  }

  /** The three things an ingest can do: nothing, record only, or record and decide. */
  lemma IngestCases(ctx: CallContext, store: Store, input: EvidenceInput) returns (v: Option<Verdict>)
    ensures var after, store' := store.(rows := Record(store.rows, input, true).rows), Ingest(ctx, store, input).store;
      if v.None? then store' == store || store' == after
      else ctx.document.ValidPolicy? && input.session in ctx.sessionModes
           && Accepts(store.rows, input)
           && store' == WriteDecision(ctx, after, input.session, v.value).store
  {
    var recorded := Record(store.rows, input, true);
    var store' := Ingest(ctx, store, input).store;
    v := None;
    if store' != store && store' != store.(rows := recorded.rows) {
      v := Some(Evaluate(AcceptedEvidence(recorded.rows, input.session), ctx.document.policy).value);
    }
  }

  /** What an ingest may do to the decision tables. */
  lemma IngestPublishes(ctx: CallContext, store: Store, input: EvidenceInput)
    returns (a: Assessment, mode: ControlMode, types: seq<InterventionType>)
    ensures var store' := Ingest(ctx, store, input).store;
      || (store'.assessments == store.assessments && store'.events == store.events)
      || (FollowsFrom(store.assessments, a, input.session)
          && store' == Publish(store.(rows := store'.rows), a, mode, types))
  {
    var v := IngestCases(ctx, store, input);
    a, mode, types := *, Demo, [];
    if v.Some? {
      var after := store.(rows := Record(store.rows, input, true).rows);
      var w := WriteDecision(ctx, after, input.session, v.value);
      if w.store != after {
        a, mode, types := WrittenAssessment(ctx, after, input.session, v.value);
      }
    }
  }

  lemma WrittenAssessment(ctx: CallContext, store: Store, session: nat, v: Verdict)
    returns (a: Assessment, mode: ControlMode, types: seq<InterventionType>)
    requires ctx.document.ValidPolicy? && session in ctx.sessionModes
    requires WriteDecision(ctx, store, session, v).store != store
    ensures FindAssessment(store.assessments, session, AcceptedHash(store.rows, session)) == None
    ensures FollowsFrom(store.assessments, a, session) && a.hash == AcceptedHash(store.rows, session)
    ensures mode == ShadowMode ==> types == []
    ensures WriteDecision(ctx, store, session, v)
         == Ingested(Ok(Assessed(|store.assessments|)), Publish(store, a, mode, types))
  {
    var priorState := CurrentState(store.assessments, session);
    var eligible := ProductionEligible(ctx, ctx.sessionModes[session], v);
    a := Assessment(session, AcceptedHash(store.rows, session), v.outcome, priorState, v.effectiveState,
                    priorState != v.effectiveState, eligible, v.reasonCode);
    mode := ControlModeOf(ctx.sessionModes[session], eligible);
    types := InterventionTypes(mode, v.proposedInterventions, ctx.hasProtectedAction);
  }

  /** The accepted evidence an ingest would evaluate. */
  ghost function EvidenceFor(store: Store, input: EvidenceInput): seq<Evidence> {
    AcceptedEvidence(Record(store.rows, input, true).rows, input.session)
  }

  lemma EvidenceThere(store: Store, input: EvidenceInput)
    requires Accepts(store.rows, input)
    ensures EvidenceFor(store, input) != []
  {
    var r := Record(store.rows, input, true).row.value;
    RecordAccepted(store.rows, input, input.session);
    AcceptedMembers(Record(store.rows, input, true).rows, input.session, r.evidence);
  }

  /** What an ingest has to meet to assess: the event is accepted, the session known, the policy parses, the accepted
      set has not been assessed yet and the gates allow the mode. */
  ghost predicate Decides(ctx: CallContext, store: Store, input: EvidenceInput) {
    && Accepts(store.rows, input) && EvidenceFor(store, input) != []
    && input.session in ctx.sessionModes && ctx.document.ValidPolicy?
    && FindAssessment(store.assessments, input.session, AcceptedHash(Record(store.rows, input, true).rows, input.session)) == None
    && var eligible := ProductionEligible(ctx, ctx.sessionModes[input.session], VerdictFor(ctx, store, input));
       ModeAllowed(ctx.gate, ControlModeOf(ctx.sessionModes[input.session], eligible), eligible)
  }

  ghost function VerdictFor(ctx: CallContext, store: Store, input: EvidenceInput): Verdict
    requires EvidenceFor(store, input) != [] && ctx.document.ValidPolicy?
  {
    Evaluate(EvidenceFor(store, input), ctx.document.policy).value
  }

  /** The ingest moves the session's state. */
  ghost predicate Moves(ctx: CallContext, store: Store, input: EvidenceInput) {
    Decides(ctx, store, input)
    && VerdictFor(ctx, store, input).effectiveState != CurrentState(store.assessments, input.session)
  }

  /** A decision is written exactly when the set has not been assessed and the gates allow the mode. */
  lemma WritesWhen(ctx: CallContext, store: Store, session: nat, v: Verdict)
    requires ctx.document.ValidPolicy? && session in ctx.sessionModes
    ensures var eligible := ProductionEligible(ctx, ctx.sessionModes[session], v);
      var w := WriteDecision(ctx, store, session, v);
      if FindAssessment(store.assessments, session, AcceptedHash(store.rows, session)) == None
         && ModeAllowed(ctx.gate, ControlModeOf(ctx.sessionModes[session], eligible), eligible)
      then w.response.Ok? && |w.store.assessments| == |store.assessments| + 1
      else w.store == store
  {}

  lemma IngestDeclines(ctx: CallContext, store: Store, input: EvidenceInput)
    requires !Decides(ctx, store, input)
    ensures var store' := Ingest(ctx, store, input).store;
      store'.assessments == store.assessments && store'.events == store.events
  {
    var after := store.(rows := Record(store.rows, input, true).rows);
    if Accepts(store.rows, input) {
      EvidenceThere(store, input);
      if input.session in ctx.sessionModes && ctx.document.ValidPolicy? {
        WritesWhen(ctx, after, input.session, VerdictFor(ctx, store, input));
      }
    }
  }

  lemma IngestDecides(ctx: CallContext, store: Store, input: EvidenceInput)
    requires Decides(ctx, store, input)
    ensures var after := store.(rows := Record(store.rows, input, true).rows);
      var w := WriteDecision(ctx, after, input.session, VerdictFor(ctx, store, input));
      Ingest(ctx, store, input).store == w.store && w.store != after
  {
    var after := store.(rows := Record(store.rows, input, true).rows);
    WritesWhen(ctx, after, input.session, VerdictFor(ctx, store, input));
  }

  lemma IngestWrites(ctx: CallContext, store: Store, input: EvidenceInput)
    ensures var store' := Ingest(ctx, store, input).store;
      if !Decides(ctx, store, input) then store'.assessments == store.assessments && store'.events == store.events
      else
        var after := store.(rows := Record(store.rows, input, true).rows);
        store' == WriteDecision(ctx, after, input.session, VerdictFor(ctx, store, input)).store && store' != after
  {
    if Decides(ctx, store, input) {
      IngestDecides(ctx, store, input);
    } else {
      IngestDeclines(ctx, store, input);
    }
  }

  /** Whether an ingest leaves the session's consumers with its state: they keep what they had unless the state moves,
      and then they have it exactly when the newest window is usable, so that the move is announced, or the state goes
      back to the one last announced. */
  lemma TrackingAfterExactly(ctx: CallContext, store: Store, input: EvidenceInput, session: nat)
    ensures var store' := Ingest(ctx, store, input).store;
      Tracking(store', session) <==>
        if input.session == session && Moves(ctx, store, input)
        then !NewestUnusable(EvidenceFor(store, input), ctx.document.policy)
             || VerdictFor(ctx, store, input).effectiveState == AnnouncedState(store.events, session)
        else Tracking(store, session)
  {
    IngestWrites(ctx, store, input);
    if Decides(ctx, store, input) {
      var after, v := store.(rows := Record(store.rows, input, true).rows), VerdictFor(ctx, store, input);
      OutcomeOfNewest(EvidenceFor(store, input), ctx.document.policy);
      WriteTracks(ctx, after, input.session, v, session);
    }
  }

  lemma WriteTracks(ctx: CallContext, store: Store, session: nat, v: Verdict, other: nat)
    requires ctx.document.ValidPolicy? && session in ctx.sessionModes
    requires WriteDecision(ctx, store, session, v).store != store
    ensures var after := WriteDecision(ctx, store, session, v).store;
      Tracking(after, other) <==>
        if session == other && v.effectiveState != CurrentState(store.assessments, session)
        then v.outcome != InsufficientOutcome || v.effectiveState == AnnouncedState(store.events, other)
        else Tracking(store, other)
  {
    var a, mode, types := WrittenAssessment(ctx, store, session, v);
    PublishTracks(store, a, mode, types, other);
  }

  /** Tracking breaks exactly when an ingest moves the state of the session while its newest window is unusable. */
  lemma TrackingBreaksExactly(ctx: CallContext, store: Store, input: EvidenceInput, session: nat)
    requires Tracking(store, session)
    ensures Tracking(Ingest(ctx, store, input).store, session) <==>
      !(input.session == session && Moves(ctx, store, input)
        && NewestUnusable(EvidenceFor(store, input), ctx.document.policy))
  {
    TrackingAfterExactly(ctx, store, input, session);
  }

  /** The ingest moves the session's state and says so, or moves it silently back to the one last announced. */
  ghost predicate Regains(ctx: CallContext, store: Store, input: EvidenceInput, session: nat) {
    && input.session == session && Moves(ctx, store, input)
    && (!NewestUnusable(EvidenceFor(store, input), ctx.document.policy)
        || VerdictFor(ctx, store, input).effectiveState == AnnouncedState(store.events, session))
  }

  /** After each of the further ingests consumers are still without the session's state. */
  ghost predicate LostThroughout(ctx: CallContext, inputs: seq<EvidenceInput>, more: seq<EvidenceInput>, session: nat) {
    && !Tracking(Process(ctx, inputs + more), session)
    && (more != [] ==> LostThroughout(ctx, inputs, more[..|more| - 1], session))
  }

  ghost predicate NeverRegained(ctx: CallContext, inputs: seq<EvidenceInput>, more: seq<EvidenceInput>, session: nat) {
    more != [] ==>
      && NeverRegained(ctx, inputs, more[..|more| - 1], session)
      && !Regains(ctx, Process(ctx, inputs + more[..|more| - 1]), more[|more| - 1], session)
  }

  /** A session whose consumers have lost its state stays that way exactly until a move that is announced or that
      silently undoes what they missed. */
  lemma {:induction false} UntrackedUntilRegained(ctx: CallContext, inputs: seq<EvidenceInput>, more: seq<EvidenceInput>, session: nat)
    requires !Tracking(Process(ctx, inputs), session)
    ensures LostThroughout(ctx, inputs, more, session) <==> NeverRegained(ctx, inputs, more, session)
  {
    if more == [] {
      assert inputs + more == inputs;
    } else {
      UntrackedUntilRegained(ctx, inputs, more[..|more| - 1], session);
      if LostThroughout(ctx, inputs, more[..|more| - 1], session) {
        NextTracking(ctx, inputs, more, session);
      }
    }
  }

  lemma NextTracking(ctx: CallContext, inputs: seq<EvidenceInput>, more: seq<EvidenceInput>, session: nat)
    requires more != [] && LostThroughout(ctx, inputs, more[..|more| - 1], session)
    ensures Tracking(Process(ctx, inputs + more), session)
       <==> Regains(ctx, Process(ctx, inputs + more[..|more| - 1]), more[|more| - 1], session)
  {
    var init, last := more[..|more| - 1], more[|more| - 1];
    ProcessSnoc(ctx, inputs, more);
    TrackingOrRegains(ctx, Process(ctx, inputs + init), last, session);
  }

  lemma ProcessSnoc(ctx: CallContext, inputs: seq<EvidenceInput>, more: seq<EvidenceInput>)
    requires more != []
    ensures Process(ctx, inputs + more)
         == Ingest(ctx, Process(ctx, inputs + more[..|more| - 1]), more[|more| - 1]).store
  {
    var all := inputs + more;
    assert all[..|all| - 1] == inputs + more[..|more| - 1] && all[|all| - 1] == more[|more| - 1];
  }

  lemma TrackingOrRegains(ctx: CallContext, store: Store, input: EvidenceInput, session: nat)
    requires !Tracking(store, session)
    ensures Tracking(Ingest(ctx, store, input).store, session) <==> Regains(ctx, store, input, session)
  {
    TrackingAfterExactly(ctx, store, input, session);
  }

  /** Over whole runs: consumers have the state of a session exactly when the state last announced is the current one,
      and that is what the assessments alone say. */
  ghost function LastAnnounced(assessments: seq<Assessment>, session: nat): RiskState {
    if assessments == [] then Unverified
    else if assessments[|assessments| - 1].session == session && Announced(assessments[|assessments| - 1])
    then assessments[|assessments| - 1].effectiveState
    else LastAnnounced(assessments[..|assessments| - 1], session)
  }

  lemma {:induction false} AnnouncedByAssessments(ctx: CallContext, inputs: seq<EvidenceInput>, session: nat)
    ensures var store := Process(ctx, inputs);
      AnnouncedState(store.events, session) == LastAnnounced(store.assessments, session)
  {
    if inputs != [] {
      var init, last := inputs[..|inputs| - 1], inputs[|inputs| - 1];
      var store, store' := Process(ctx, init), Process(ctx, inputs);
      AnnouncedByAssessments(ctx, init, session);
      var a, mode, types := IngestPublishes(ctx, store, last);
      if store'.assessments != store.assessments || store'.events != store.events {
        assert store'.assessments[..|store.assessments|] == store.assessments;
        if Announced(a) {
          assert store'.events[..|store.events|] == store.events;
        }
      }
    }
  }

  /** Ingests that never assess a silent change keep every session's event stream true. */
  lemma TrackingWithoutSilence(ctx: CallContext, inputs: seq<EvidenceInput>, session: nat)
    requires forall a :: a in Process(ctx, inputs).assessments && a.session == session ==> !Silent(a)
    ensures Tracking(Process(ctx, inputs), session)
  {
    DecisionsConsistent(ctx, inputs);
    AnnouncedByAssessments(ctx, inputs, session);
    NoSilence(Process(ctx, inputs).assessments, session);
  }

  lemma {:induction false} NoSilence(assessments: seq<Assessment>, session: nat)
    requires Chained(assessments)
    requires forall a :: a in assessments && a.session == session ==> !Silent(a)
    ensures LastAnnounced(assessments, session) == CurrentState(assessments, session)
  {
    if assessments != [] {
      var init, last := assessments[..|assessments| - 1], assessments[|assessments| - 1];
      forall i | 0 <= i < |init|
        ensures init[i].priorState == CurrentState(init[..i], init[i].session)
        ensures init[i].transitioned == (init[i].priorState != init[i].effectiveState)
      {
        assert init[..i] == assessments[..i] && init[i] == assessments[i];
      }
      NoSilence(init, session);
      assert last in assessments;
      assert assessments[..|assessments| - 1] == init;
    }
  }

  // ---------------------------------------------------------------- a run with a silent change

  ghost predicate HashKnown(rows: seq<EvidenceRow>, hash: set<HashEntry>) {
    forall h :: h in hash ==> exists r :: r in rows && r.evidence.id == h.0
  }

  /** Every assessed set was made of rows of the table. */
  lemma {:induction false} HashesKnown(ctx: CallContext, inputs: seq<EvidenceInput>)
    ensures forall a :: a in Process(ctx, inputs).assessments ==> HashKnown(Process(ctx, inputs).rows, a.hash)
  {
    if inputs != [] {
      var init, last := inputs[..|inputs| - 1], inputs[|inputs| - 1];
      var store, store' := Process(ctx, init), Process(ctx, inputs);
      HashesKnown(ctx, init);
      IngestWrites(ctx, store, last);
      forall a | a in store'.assessments ensures HashKnown(store'.rows, a.hash) {
        if a in store.assessments {
          KeysStay(ctx, store, last, a.hash);
        } else {
          AssessedHash(ctx, store.(rows := Record(store.rows, last, true).rows), last.session, VerdictFor(ctx, store, last), a);
        }
      }
    }
  }

  lemma RecordKeepsEvidence(rows: seq<EvidenceRow>, input: EvidenceInput, k: nat)
    requires k < |rows|
    ensures var rows' := Record(rows, input, true).rows;
      k < |rows'| && rows'[k].evidence == rows[k].evidence
  {}

  lemma IngestRows(ctx: CallContext, store: Store, input: EvidenceInput)
    ensures var rows' := Ingest(ctx, store, input).store.rows;
      rows' == store.rows || rows' == Record(store.rows, input, true).rows
  {
    var v := IngestCases(ctx, store, input);
  }

  lemma KeysStay(ctx: CallContext, store: Store, input: EvidenceInput, hash: set<HashEntry>)
    requires HashKnown(store.rows, hash)
    ensures HashKnown(Ingest(ctx, store, input).store.rows, hash)
  {
    var rows' := Ingest(ctx, store, input).store.rows;
    IngestRows(ctx, store, input);
    forall h | h in hash ensures exists r :: r in rows' && r.evidence.id == h.0 {
      var r :| r in store.rows && r.evidence.id == h.0;
      var k :| 0 <= k < |store.rows| && store.rows[k] == r;
      RecordKeepsEvidence(store.rows, input, k);
      assert rows'[k] in rows' && rows'[k].evidence == r.evidence;
    }
  }

  lemma AssessedHash(ctx: CallContext, store: Store, session: nat, v: Verdict, a: Assessment)
    requires ctx.document.ValidPolicy? && session in ctx.sessionModes
    requires a in WriteDecision(ctx, store, session, v).store.assessments && a !in store.assessments
    ensures HashKnown(WriteDecision(ctx, store, session, v).store.rows, a.hash)
  {
    var b, mode, types := WrittenAssessment(ctx, store, session, v);
    assert a == b;
    forall h | h in a.hash ensures exists r :: r in store.rows && r.evidence.id == h.0 {}
  }

  /** The set that a new event completes has never been assessed. */
  lemma NewSetUnassessed(ctx: CallContext, inputs: seq<EvidenceInput>, input: EvidenceInput)
    requires Accepts(Process(ctx, inputs).rows, input)
    requires FindKey(Process(ctx, inputs).rows, input.evidence.id) == None
    ensures var store := Process(ctx, inputs);
      FindAssessment(store.assessments, input.session, AcceptedHash(Record(store.rows, input, true).rows, input.session)) == None
  {
    var store := Process(ctx, inputs);
    var hash := AcceptedHash(Record(store.rows, input, true).rows, input.session);
    HashesKnown(ctx, inputs);
    RecordAccepted(store.rows, input, input.session);
    var r := Record(store.rows, input, true).row.value;
    assert (r.evidence.id, r.evidence.eventSequence, r.evidence.windowSequence, r.evidence.evidenceType, r.evidence.revision) in hash;
    forall a | a in store.assessments ensures a.hash != hash {
      assert HashKnown(store.rows, a.hash);
    }
  }

  ghost predicate Unlike(r: EvidenceRow, input: EvidenceInput) {
    r.evidence.id != input.evidence.id && r.evidence.eventSequence != input.evidence.eventSequence
    && !SameKey(r.evidence, input.evidence)
  }

  /** An event unlike all others is accepted as it is. */
  lemma RecordNew(rows: seq<EvidenceRow>, input: EvidenceInput)
    requires Plain(input) && forall r :: r in rows ==> Unlike(r, input)
    ensures Record(rows, input, true) == Recorded(Ok(NewRow(input, Accepted, None)), rows + [NewRow(input, Accepted, None)])
    ensures AcceptedEvidence(Record(rows, input, true).rows, input.session)
         == AcceptedEvidence(rows, input.session) + [input.evidence]
  {
    var row := NewRow(input, Accepted, None);
    assert forall k :: 0 <= k < |rows| ==> Unlike(rows[k], input);
    assert FindKey(rows, input.evidence.id) == None && LatestAccepted(rows, input) == None;
    assert !Clashes(row, rows);
    assert (rows + [row])[..|rows|] == rows;
  }

  /** An ingest of a new event whose newest window is unusable sets the state and announces nothing. */
  lemma QuietIngest(ctx: CallContext, inputs: seq<EvidenceInput>, input: EvidenceInput)
    requires ctx.document.ValidPolicy? && input.session in ctx.sessionModes && !ctx.gate.productionEnvironment
    requires Plain(input) && forall r :: r in Process(ctx, inputs).rows ==> Unlike(r, input)
    requires NewestUnusable(AcceptedEvidence(Process(ctx, inputs).rows, input.session) + [input.evidence], ctx.document.policy)
    ensures QuietlyIngested(ctx, Process(ctx, inputs), input, Process(ctx, inputs + [input]))
  {
    var store := Process(ctx, inputs);
    assert (inputs + [input])[..|inputs|] == inputs;
    RecordNew(store.rows, input);
    NewSetUnassessed(ctx, inputs, input);
    QuietDecision(ctx, store, input);
  }

  ghost predicate QuietlyIngested(ctx: CallContext, store: Store, input: EvidenceInput, after: Store)
    requires ctx.document.ValidPolicy?
  {
    var evidence := AcceptedEvidence(store.rows, input.session) + [input.evidence];
    && after.rows == store.rows + [NewRow(input, Accepted, None)]
    && AcceptedEvidence(after.rows, input.session) == evidence
    && after.events == store.events
    && CurrentState(after.assessments, input.session) == Evaluate(evidence, ctx.document.policy).value.effectiveState
  }

  lemma QuietDecision(ctx: CallContext, store: Store, input: EvidenceInput)
    requires ctx.document.ValidPolicy? && input.session in ctx.sessionModes && !ctx.gate.productionEnvironment
    requires Record(store.rows, input, true)
          == Recorded(Ok(NewRow(input, Accepted, None)), store.rows + [NewRow(input, Accepted, None)])
    requires EvidenceFor(store, input) == AcceptedEvidence(store.rows, input.session) + [input.evidence]
    requires NewestUnusable(EvidenceFor(store, input), ctx.document.policy)
    requires FindAssessment(store.assessments, input.session,
                            AcceptedHash(Record(store.rows, input, true).rows, input.session)) == None
    ensures QuietlyIngested(ctx, store, input, Ingest(ctx, store, input).store)
  {
    OutcomeOfNewest(EvidenceFor(store, input), ctx.document.policy);
    IngestWrites(ctx, store, input);
    QuietWrite(ctx, store.(rows := Record(store.rows, input, true).rows), input.session, VerdictFor(ctx, store, input));
  }

  lemma QuietWrite(ctx: CallContext, store: Store, session: nat, v: Verdict)
    requires ctx.document.ValidPolicy? && session in ctx.sessionModes && !ctx.gate.productionEnvironment
    requires FindAssessment(store.assessments, session, AcceptedHash(store.rows, session)) == None
    requires v.outcome == InsufficientOutcome
    ensures var after := WriteDecision(ctx, store, session, v).store;
      && after.rows == store.rows && after.events == store.events
      && CurrentState(after.assessments, session) == v.effectiveState
  {
    var after := WriteDecision(ctx, store, session, v).store;
    assert after.assessments[..|store.assessments|] == store.assessments;
  }

  lemma ErrorAloneVerdict(policy: Policy, error: Evidence)
    requires error.evidenceType == PipelineError
    ensures NewestUnusable([error], policy) && Evaluate([error], policy).value.effectiveState == Unverified
  {
    Hysteresis.ErrorAlone(policy, error);
    SelectSorted([error]);
    SelectEmpty([error]);
    GroupShape(Select([error]));
    Hysteresis.OneReading(policy, Initial(Select([error])), Readings(policy, Select([error])));
  }

  /** An error of a later window that arrived first hides the outcome just the same. */
  lemma ErrorFirst(policy: Policy, error: Evidence, earlier: seq<Evidence>)
    requires earlier != [] && Hysteresis.AllBefore(earlier, [error]) && error.evidenceType == PipelineError
    requires UniqueNewest([error] + earlier)
    ensures NewestUnusable([error] + earlier, policy)
    ensures Evaluate([error] + earlier, policy).value.effectiveState == Evaluate(earlier, policy).value.effectiveState
  {
    Hysteresis.LaterErrorHidesOutcome(policy, earlier, error);
    SelectOrderIndependent(earlier + [error], [error] + earlier);
    EvaluateBySelection(earlier + [error], [error] + earlier, policy);
    OutcomeOfNewest([error] + earlier, policy);
  }

  ghost predicate Apart(e: Evidence, f: Evidence) {
    e.id != f.id && e.eventSequence != f.eventSequence && !SameKey(e, f)
  }

  /** All rows so far are accepted evidence of the session, and nothing has been announced. */
  ghost predicate Quiet(ctx: CallContext, inputs: seq<EvidenceInput>, session: nat, evidence: seq<Evidence>) {
    var store := Process(ctx, inputs);
    && store.events == []
    && AcceptedEvidence(store.rows, session) == evidence
    && forall r :: r in store.rows ==> r.evidence in evidence
  }

  /** One more quiet ingest of a run. */
  lemma QuietStep(ctx: CallContext, inputs: seq<EvidenceInput>, input: EvidenceInput, evidence: seq<Evidence>)
    requires ctx.document.ValidPolicy? && input.session in ctx.sessionModes && !ctx.gate.productionEnvironment
    requires Plain(input) && Quiet(ctx, inputs, input.session, evidence)
    requires forall e :: e in evidence ==> Apart(e, input.evidence)
    requires NewestUnusable(evidence + [input.evidence], ctx.document.policy)
    ensures Quiet(ctx, inputs + [input], input.session, evidence + [input.evidence])
    ensures CurrentState(Process(ctx, inputs + [input]).assessments, input.session)
         == Evaluate(evidence + [input.evidence], ctx.document.policy).value.effectiveState
  {
    var rows := Process(ctx, inputs).rows;
    forall r | r in rows ensures Unlike(r, input) {
      assert r.evidence in evidence;
    }
    QuietIngest(ctx, inputs, input);
  }

  /** An error of a later window, and then the identity and spoof evidence of one window that names another state. */
  ghost predicate Masking(policy: Policy, error: Evidence, identity: Evidence, spoof: Evidence) {
    && error.evidenceType == PipelineError && identity.evidenceType == Identity && spoof.evidenceType == SpoofFast
    && identity.windowSequence == spoof.windowSequence < error.windowSequence
    && Apart(error, identity) && Apart(error, spoof) && Apart(identity, spoof)
    && AllReady([identity, spoof]) && AllPassQuality([identity, spoof], policy)
    && TargetScore(identity, ExpectedSpeaker).Some? && TargetScore(spoof, Spoof).Some?
    && Named(policy, identity, spoof) != Unverified
  }

  ghost function Named(policy: Policy, identity: Evidence, spoof: Evidence): RiskState
    requires TargetScore(identity, ExpectedSpeaker).Some? && TargetScore(spoof, Spoof).Some?
  {
    Decide(policy, Unverified, TargetScore(identity, ExpectedSpeaker).value, TargetScore(spoof, Spoof).value)
  }

  lemma AfterIdentity(policy: Policy, error: Evidence, identity: Evidence, spoof: Evidence)
    requires Masking(policy, error, identity, spoof)
    ensures NewestUnusable([error] + [identity], policy)
  {
    ErrorFirst(policy, error, [identity]);
  }

  lemma MaskingOrder(policy: Policy, error: Evidence, identity: Evidence, spoof: Evidence)
    requires Masking(policy, error, identity, spoof)
    ensures UniqueNewest([error] + [identity, spoof]) && Hysteresis.AllBefore([identity, spoof], [error])
  {}

  lemma AfterSpoof(policy: Policy, error: Evidence, identity: Evidence, spoof: Evidence)
    requires Masking(policy, error, identity, spoof) && policy.entryConsecutiveWindows == 1
    ensures NewestUnusable([error, identity] + [spoof], policy)
    ensures Evaluate([error, identity] + [spoof], policy).value.effectiveState == Named(policy, identity, spoof)
  {
    assert [error] + [identity, spoof] == [error, identity] + [spoof];
    MaskingOrder(policy, error, identity, spoof);
    OneWindowVerdict(policy, identity, spoof);
    ErrorFirst(policy, error, [identity, spoof]);
  }

  /** The events of such a run, fit for quiet ingests. */
  ghost predicate Fit(ctx: CallContext, error: EvidenceInput, identity: EvidenceInput, spoof: EvidenceInput, session: nat) {
    && ctx.document.ValidPolicy? && session in ctx.sessionModes && !ctx.gate.productionEnvironment
    && Plain(error) && Plain(identity) && Plain(spoof)
    && error.session == identity.session == spoof.session == session
    && Masking(ctx.document.policy, error.evidence, identity.evidence, spoof.evidence)
  }

  lemma QuietFirst(ctx: CallContext, error: EvidenceInput, identity: EvidenceInput, spoof: EvidenceInput, session: nat)
    requires Fit(ctx, error, identity, spoof, session)
    ensures Quiet(ctx, [error], session, [error.evidence])
  {
    assert Quiet(ctx, [], session, []);
    assert [] + [error.evidence] == [error.evidence] && [] + [error] == [error];
    ErrorAloneVerdict(ctx.document.policy, error.evidence);
    QuietStep(ctx, [], error, []);
  }

  lemma QuietSecond(ctx: CallContext, error: EvidenceInput, identity: EvidenceInput, spoof: EvidenceInput, session: nat)
    requires Fit(ctx, error, identity, spoof, session)
    ensures Quiet(ctx, [error] + [identity], session, [error.evidence] + [identity.evidence])
  {
    QuietFirst(ctx, error, identity, spoof, session);
    AfterIdentity(ctx.document.policy, error.evidence, identity.evidence, spoof.evidence);
    QuietStep(ctx, [error], identity, [error.evidence]);
  }

  /** With an entry count of one, whenever the error arrives first the session's state moves and no event says so. */
  lemma MaskedChange(ctx: CallContext, error: EvidenceInput, identity: EvidenceInput, spoof: EvidenceInput, session: nat)
    requires Fit(ctx, error, identity, spoof, session) && ctx.document.policy.entryConsecutiveWindows == 1
    ensures var store := Process(ctx, [error] + [identity] + [spoof]);
      && CurrentState(store.assessments, session) == Named(ctx.document.policy, identity.evidence, spoof.evidence)
      && store.events == [] && !Tracking(store, session)
  {
    var evidence := [error.evidence] + [identity.evidence];
    QuietSecond(ctx, error, identity, spoof, session);
    AfterSpoof(ctx.document.policy, error.evidence, identity.evidence, spoof.evidence);
    assert evidence == [error.evidence, identity.evidence];
    QuietStep(ctx, [error] + [identity], spoof, evidence);
  }

  const SIMULATED_CALL := CallContext(ValidPolicy(DIRECT, false, false, None), Gate(false, false, false, false, false), false,
                                      map[0 := Simulated])

  /** A pipeline error of window 2, then identity and spoof evidence of window 1: the state becomes HIGH_RISK and
      nobody is told. */
  lemma SilentChangeHappens()
    ensures exists inputs ::
      CurrentState(Process(SIMULATED_CALL, inputs).assessments, 0) == HighRisk && Process(SIMULATED_CALL, inputs).events == []
  {
    var error := EvidenceInput(0,
      Evidence("e", Simulated, PipelineError, Failed, 2, 1, 0, 0, None, None, [], None, None, None, NotApplicable, None, None, false),
      0, 0, [], None, None);
    var identity, spoof := Scored("i", Identity, ExpectedSpeaker, 0.0, 2, 0), Scored("s", SpoofFast, Spoof, 1.0, 3, 0);
    SampleMasking(error.evidence, identity.evidence, spoof.evidence);
    MaskedChange(SIMULATED_CALL, error, identity, spoof, 0);
  }

  lemma SampleMasking(error: Evidence, identity: Evidence, spoof: Evidence)
    requires error == Evidence("e", Simulated, PipelineError, Failed, 2, 1, 0, 0, None, None, [], None, None, None,
                               NotApplicable, None, None, false)
    requires identity == Scored("i", Identity, ExpectedSpeaker, 0.0, 2, 0).evidence
    requires spoof == Scored("s", SpoofFast, Spoof, 1.0, 3, 0).evidence
    ensures Masking(DIRECT, error, identity, spoof) && Named(DIRECT, identity, spoof) == HighRisk
  {
    assert "e"[0] != "i"[0] && "e"[0] != "s"[0] && "i"[0] != "s"[0];
  }

  // ---------------------------------------------------------------- gates

  /** The mode of an event is the one its session's evidence and the gates allow. */
  ghost predicate Gated(ctx: CallContext, e: RiskEvent) {
    && ctx.document.ValidPolicy? && e.session in ctx.sessionModes
    && (e.mode == Production ==>
          && ctx.gate.productionInterventions && ctx.gate.phaseOPromoted && ctx.gate.phasePPromoted && ctx.gate.phaseQPromoted
          && ctx.document.productionActivation && ctx.document.promotedThresholds
          && ctx.sessionModes[e.session] == Calibrated)
    && (e.mode == Demo ==> ctx.sessionModes[e.session] == Simulated)
    && (e.mode == ShadowMode ==> ctx.sessionModes[e.session] != Simulated)
    && (ctx.gate.productionEnvironment ==> e.mode == Production)
  }

  lemma WriteGated(ctx: CallContext, store: Store, session: nat, v: Verdict)
    requires ctx.document.ValidPolicy? && session in ctx.sessionModes
    requires forall e :: e in store.events ==> Gated(ctx, e)
    ensures forall e :: e in WriteDecision(ctx, store, session, v).store.events ==> Gated(ctx, e)
  {}

  /** In every run nothing is announced in production mode unless every gate is open, the policy activated and the
      evidence calibrated; and in a production environment nothing is announced in any other mode. */
  lemma {:induction false} EventsGated(ctx: CallContext, inputs: seq<EvidenceInput>)
    ensures forall e :: e in Process(ctx, inputs).events ==> Gated(ctx, e)
  {
    if inputs != [] {
      var init, last := inputs[..|inputs| - 1], inputs[|inputs| - 1];
      EventsGated(ctx, init);
      var store := Process(ctx, init);
      var v := IngestCases(ctx, store, last);
      if v.Some? {
        WriteGated(ctx, store.(rows := Record(store.rows, last, true).rows), last.session, v.value);
      }
    }
  }
}

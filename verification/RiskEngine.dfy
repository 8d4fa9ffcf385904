/**
 The risk engine: picks the newest evidence of every window and type, turns each window into a decision
 against thresholds that depend on the current state, and folds the windows with hysteresis.
 */
module RiskEngine {
  import opened Wrappers

  datatype RiskState = Verified | Unverified | HighRisk | Critical

  datatype Outcome = Decided(state: RiskState) | InsufficientOutcome

  datatype EvidenceType = Identity | AudioQuality | InsufficientEvidence | PipelineError | SpoofDeep | SpoofFast

  datatype Readiness = Ready | Insufficient | Failed

  datatype EvidenceMode = Simulated | Shadow | Calibrated

  datatype ScoreDirection = HigherMeansMore | LowerMeansMore | NotApplicable

  datatype ScoreTarget = ExpectedSpeaker | Spoof | Bonafide | QualityOfAudio

  datatype ModelStatus = Registered | Validated | Active | Retired | RejectedModel

  datatype InterventionType = Warn | HoldProtectedAction | RequireStepUp | RequireCallback | SupervisorEscalation | EndCall

  /** One evidence row as the engine reads it. Window and event sequences are 64-bit columns that are never
      incremented here, so unbounded integers lose nothing; scores are reals. */
  datatype Evidence = Evidence(
    id: string,
    mode: EvidenceMode,
    evidenceType: EvidenceType,
    readiness: Readiness,
    windowSequence: int,
    eventSequence: int,
    revision: int,
    observedAt: int,
    qualityScore: Option<real>,
    speechDurationMs: Option<int>,
    reasonCodes: seq<string>,
    rawScore: Option<real>,
    calibratedScore: Option<real>,
    calibrationVersion: Option<string>,
    scoreDirection: ScoreDirection,
    scoreTarget: Option<ScoreTarget>,
    modelStatus: Option<ModelStatus>,
    modelTraceMatches: bool)

  /** Eight times the spacing of double-precision numbers at 1, which the parser allows the weights to be off. */
  const WEIGHT_TOLERANCE := 1.0 / 562949953421312.0

  datatype Policy = Policy(
    minimumScore: real,
    minimumSpeechDurationMs: int,
    rejectingReasonCodes: seq<string>,
    identityEnter: real,
    identityClear: real,
    spoofEnter: real,
    spoofClear: real,
    fastWeight: real,
    deepWeight: real,
    entryConsecutiveWindows: nat,
    clearConsecutiveWindows: nat,
    maximumWindowGap: nat,
    highRiskInterventions: seq<InterventionType>,
    criticalInterventions: seq<InterventionType>)
  {
    /** The ranges the policy document parser enforces. It does not order clear below enter. */
    ghost predicate Parsed() {
      && 0.0 <= minimumScore <= 1.0 && 0 <= minimumSpeechDurationMs <= 300000
      && 0.0 <= identityEnter <= 1.0 && 0.0 <= identityClear <= 1.0
      && 0.0 <= spoofEnter <= 1.0 && 0.0 <= spoofClear <= 1.0
      && 0.0 <= fastWeight <= 1.0 && 0.0 <= deepWeight <= 1.0
      && -WEIGHT_TOLERANCE <= fastWeight + deepWeight - 1.0 <= WEIGHT_TOLERANCE
      && 1 <= entryConsecutiveWindows <= 100
      && 1 <= clearConsecutiveWindows <= 100
      && maximumWindowGap <= 10000
      && (forall i, j :: 0 <= i < j < |highRiskInterventions| ==> highRiskInterventions[i] != highRiskInterventions[j])
      && forall i, j :: 0 <= i < j < |criticalInterventions| ==> criticalInterventions[i] != criticalInterventions[j]
    }
  }

  datatype WindowDecision = WindowDecision(
    outcome: Outcome,
    state: Option<RiskState>,
    reasonCode: string,
    sequence: int,
    observedAt: int)

  datatype Window = Window(sequence: int, events: seq<Evidence>)

  // ---------------------------------------------------------------- selection

  predicate SameKey(a: Evidence, b: Evidence) {
    a.windowSequence == b.windowSequence && a.evidenceType == b.evidenceType
  }

  /** The lexicographic order on (revision, eventSequence). */
  predicate Newer(a: Evidence, b: Evidence) {
    a.revision > b.revision || (a.revision == b.revision && a.eventSequence > b.eventSequence)
  }

  /** Position of a type's name under locale comparison. */
  function Rank(t: EvidenceType): nat {
    match t
    case AudioQuality => 0
    case Identity => 1
    case InsufficientEvidence => 2
    case PipelineError => 3
    case SpoofDeep => 4
    case SpoofFast => 5
  }

  predicate Precedes(a: Evidence, b: Evidence) {
    a.windowSequence < b.windowSequence ||
    (a.windowSequence == b.windowSequence && Rank(a.evidenceType) < Rank(b.evidenceType))
  }

  ghost predicate Sorted(es: seq<Evidence>) {
    forall i, j :: 0 <= i < j < |es| ==> Precedes(es[i], es[j])
  }

  /** Puts an event into a selection: replaces the event of its key when it is newer. */
  function Upsert(selected: seq<Evidence>, e: Evidence): seq<Evidence> {
    if selected == [] then [e]
    else if SameKey(e, selected[0]) then
      if Newer(e, selected[0]) then [e] + selected[1..] else selected
    else if Precedes(e, selected[0]) then [e] + selected
    else [selected[0]] + Upsert(selected[1..], e)
  }

  /** What selectLatest computes. */
  function Select(events: seq<Evidence>): seq<Evidence> {
    if events == [] then [] else Upsert(Select(events[..|events| - 1]), events[|events| - 1])
  }

  type SelectionKey = (int, EvidenceType)

  function KeyOf(e: Evidence): SelectionKey {
    (e.windowSequence, e.evidenceType)
  }

  /** A map whose values are exactly the members of a selection, each under its own key. */
  ghost predicate Indexes(latest: map<SelectionKey, Evidence>, selected: seq<Evidence>) {
    && Sorted(selected)
    && (forall e :: e in selected ==> KeyOf(e) in latest && latest[KeyOf(e)] == e)
    && (forall k :: k in latest ==> KeyOf(latest[k]) == k && latest[k] in selected)
  }

  method SelectLatest(events: seq<Evidence>) returns (selected: seq<Evidence>)
    ensures selected == Select(events)
  {
    var latest: map<SelectionKey, Evidence> := map[];
    var insertionOrder: seq<SelectionKey> := [];
    for i := 0 to |events|
      invariant Indexes(latest, Select(events[..i]))
      invariant forall k :: k in latest <==> k in insertionOrder
    {
      var event := events[i];
      var key := KeyOf(event);
      assert events[..i + 1][..i] == events[..i];
      UpsertIndexes(latest, Select(events[..i]), event);
      if key !in latest || event.revision > latest[key].revision
         || (event.revision == latest[key].revision && event.eventSequence > latest[key].eventSequence) {
        if key !in latest {
          insertionOrder := insertionOrder + [key];
        }
        latest := latest[key := event];
      }
    }
    assert events[..|events|] == events;
    selected := [];
    for i := 0 to |insertionOrder|
      invariant Sorted(selected)
      invariant forall e :: e in selected <==> exists j :: 0 <= j < i && latest[insertionOrder[j]] == e
    {
      selected := SortedInsert(selected, latest[insertionOrder[i]]);
    }
    SortedUnique(selected, Select(events));
  }

  /** The library sort, one element at a time. */
  method SortedInsert(selected: seq<Evidence>, e: Evidence) returns (r: seq<Evidence>)
    requires Sorted(selected)
    requires forall x :: x in selected && SameKey(x, e) ==> x == e
    ensures Sorted(r)
    ensures forall x :: x in r <==> x in selected || x == e
  {
    var i := 0;
    while i < |selected| && Precedes(selected[i], e)
      invariant i <= |selected|
      invariant forall j :: 0 <= j < i ==> Precedes(selected[j], e)
    {
      i := i + 1;
    }
    if i < |selected| && SameKey(selected[i], e) {
      return selected;
    }
    r := selected[..i] + [e] + selected[i..];
    assert forall x :: x in selected <==> x in selected[..i] || x in selected[i..];
  }

  lemma RankInjective(a: EvidenceType, b: EvidenceType)
    ensures Rank(a) == Rank(b) ==> a == b
  {}

  lemma UpsertSorted(selected: seq<Evidence>, e: Evidence)
    requires Sorted(selected)
    ensures Sorted(Upsert(selected, e))
    ensures forall x :: x in Upsert(selected, e) ==> x in selected || x == e
  {
    if selected != [] {
      var rest := selected[1..];
      assert selected == [selected[0]] + rest;
      UpsertSorted(rest, e);
      RankInjective(e.evidenceType, selected[0].evidenceType);
      SortedCons(selected[0], rest);
      SortedCons(e, rest);
      SortedCons(e, selected);
      SortedCons(selected[0], Upsert(rest, e));
    }
  }

  lemma UpsertMembers(selected: seq<Evidence>, e: Evidence)
    requires Sorted(selected)
    ensures Sorted(Upsert(selected, e))
    ensures forall x :: x in Upsert(selected, e) ==> x in selected || x == e
    ensures forall x :: x in selected && !SameKey(x, e) ==> x in Upsert(selected, e)
    ensures forall x :: x in selected && SameKey(x, e) ==>
      if Newer(e, x) then e in Upsert(selected, e) && x !in Upsert(selected, e) else x in Upsert(selected, e)
    ensures (forall x :: x in selected ==> !SameKey(x, e)) ==> e in Upsert(selected, e)
    ensures e in Upsert(selected, e) ==> e in selected || forall x :: x in selected && SameKey(x, e) ==> Newer(e, x)
  {
    UpsertSorted(selected, e);
    if selected != [] {
      var rest := selected[1..];
      assert selected == [selected[0]] + rest;
      UpsertMembers(rest, e);
      RankInjective(e.evidenceType, selected[0].evidenceType);
    }
  }

  lemma SortedCons(head: Evidence, tail: seq<Evidence>)
    requires Sorted(tail)
    ensures (forall x :: x in tail ==> Precedes(head, x)) ==> Sorted([head] + tail)
  {}

  lemma UpsertIndexes(latest: map<SelectionKey, Evidence>, selected: seq<Evidence>, e: Evidence)
    requires Indexes(latest, selected)
    ensures Indexes(if KeyOf(e) !in latest || Newer(e, latest[KeyOf(e)]) then latest[KeyOf(e) := e] else latest,
                    Upsert(selected, e))
  {
    UpsertMembers(selected, e);
  }

  /** A strictly sorted sequence is determined by its members. */
  lemma {:induction false} SortedUnique(a: seq<Evidence>, b: seq<Evidence>)
    requires Sorted(a) && Sorted(b)
    requires forall x :: x in a <==> x in b
    ensures a == b
  {
    if a == [] || b == [] {
      NoMembers(a);
      NoMembers(b);
    } else {
      assert a[0] in b;
      assert b[0] in a;
      assert a[0] == b[0];
      assert a == [a[0]] + a[1..];
      assert b == [b[0]] + b[1..];
      forall x ensures x in a[1..] <==> x in b[1..] {
        if x in a[1..] { assert x in b; }
        if x in b[1..] { assert x in a; }
      }
      SortedUnique(a[1..], b[1..]);
    }
  }

  /** No event of the list is newer within its window and type. */
  ghost predicate Newest(e: Evidence, events: seq<Evidence>) {
    e in events && forall x :: x in events && SameKey(x, e) ==> !Newer(x, e)
  }

  /** No two events tie for the newest of a window and type by (revision, eventSequence); older ones may. */
  ghost predicate UniqueNewest(events: seq<Evidence>) {
    forall x, y :: Newest(x, events) && Newest(y, events) && SameKey(x, y) ==> x == y
  }

  lemma {:induction false} SelectSorted(events: seq<Evidence>)
    ensures Sorted(Select(events))
  {
    if events != [] {
      SelectSorted(events[..|events| - 1]);
      UpsertMembers(Select(events[..|events| - 1]), events[|events| - 1]);
    }
  }

  /** Every event is represented in the selection by one of its window and type that is no older. */
  lemma {:induction false} SelectCovers(events: seq<Evidence>, e: Evidence) returns (x: Evidence)
    requires e in events
    ensures x in Select(events) && SameKey(x, e) && !Newer(e, x)
  {
    var init, last := events[..|events| - 1], events[|events| - 1];
    assert events == init + [last];
    SelectSorted(init);
    UpsertMembers(Select(init), last);
    if e in init {
      x := SelectCovers(init, e);
      if SameKey(x, last) && Newer(last, x) { x := last; }
    } else if y :| y in Select(init) && SameKey(y, last) {
      x := if Newer(last, y) then last else y;
    } else {
      x := last;
    }
  }

  lemma {:induction false} SelectMember(events: seq<Evidence>, e: Evidence)
    requires e in Select(events)
    ensures Newest(e, events)
  {
    SelectSorted(events);
    SelectSubset(events, e);
    forall y | y in events && SameKey(y, e) ensures !Newer(y, e) {
      var x := SelectCovers(events, y);
      SortedKeyUnique(Select(events), x, e);
    }
  }

  lemma {:induction false} SelectSubset(events: seq<Evidence>, e: Evidence)
    requires e in Select(events)
    ensures e in events
  {
    var init, last := events[..|events| - 1], events[|events| - 1];
    assert events == init + [last];
    SelectSorted(init);
    UpsertMembers(Select(init), last);
    if e != last { SelectSubset(init, e); }
  }

  lemma SortedKeyUnique(es: seq<Evidence>, x: Evidence, y: Evidence)
    requires Sorted(es) && x in es && y in es && SameKey(x, y)
    ensures x == y
  {
    var i :| 0 <= i < |es| && es[i] == x;
    var j :| 0 <= j < |es| && es[j] == y;
    assert i < j ==> Precedes(x, y);
    assert j < i ==> Precedes(y, x);
  }

  /** Unless two events tie for it, the selection is exactly the newest event of every window and type. */
  lemma SelectExact(events: seq<Evidence>, e: Evidence)
    requires UniqueNewest(events)
    ensures e in Select(events) <==> Newest(e, events)
  {
    if e in Select(events) {
      SelectMember(events, e);
    } else if Newest(e, events) {
      var x := SelectCovers(events, e);
      SelectMember(events, x);
    }
  }

  /** What is newest in a part that still holds the newest of the whole is newest in the whole. */
  lemma NewestOfPart(a: seq<Evidence>, b: seq<Evidence>, e: Evidence)
    requires forall x :: x in a ==> x in b
    requires forall x :: Newest(x, b) ==> x in a
    requires Newest(e, a)
    ensures Newest(e, b)
  {
    var x := SelectCovers(b, e);
    SelectMember(b, x);
    assert !Newer(x, e);
  }

  /** Unless newest events tie, the selection depends only on which events arrived, not on their order or repetition,
      and it may be computed from any sub-collection that still holds the newest event of every key. */
  lemma SelectOrderIndependent(a: seq<Evidence>, b: seq<Evidence>)
    requires UniqueNewest(b)
    requires forall e :: e in a ==> e in b
    requires forall e :: Newest(e, b) ==> e in a
    ensures Select(a) == Select(b)
  {
    SelectSorted(a);
    SelectSorted(b);
    forall e | Newest(e, a) ensures Newest(e, b) {
      NewestOfPart(a, b, e);
    }
    forall e ensures e in Select(a) <==> e in Select(b) {
      SelectExact(a, e);
      SelectExact(b, e);
    }
    SortedUnique(Select(a), Select(b));
  }

  /** Of events that tie for the newest, the first one stays selected. */
  lemma {:induction false} FirstNewestSelected(events: seq<Evidence>)
    requires events != [] && Newest(events[0], events)
    ensures events[0] in Select(events)
  {
    var init, last := events[..|events| - 1], events[|events| - 1];
    assert events == init + [last];
    SelectSorted(init);
    UpsertMembers(Select(init), last);
    if init != [] {
      assert Newest(init[0], init);
      FirstNewestSelected(init);
    }
  }

  lemma SelectEmpty(events: seq<Evidence>)
    ensures Select(events) == [] <==> events == []
  {
    if events != [] {
      var x := SelectCovers(events, events[0]);
    }
  }

  // ---------------------------------------------------------------- one window

  function Find(events: seq<Evidence>, t: EvidenceType): Option<Evidence> {
    if events == [] then None
    else if events[0].evidenceType == t then Some(events[0])
    else Find(events[1..], t)
  }

  /** The score as "more of the desired target", or None when its semantics do not allow that reading. */
  function TargetScore(event: Evidence, desired: ScoreTarget): Option<real> {
    var score := if event.calibratedScore.Some? then event.calibratedScore else event.rawScore;
    if score.None? || score.value < 0.0 || score.value > 1.0 || event.scoreTarget.None? then None
    else if event.scoreDirection == NotApplicable then None
    else
      var moreOfRecordedTarget := if event.scoreDirection == HigherMeansMore then score.value else 1.0 - score.value;
      if event.scoreTarget.value == desired then Some(moreOfRecordedTarget)
      else if (event.scoreTarget.value == Bonafide && desired == Spoof)
           || (event.scoreTarget.value == Spoof && desired == Bonafide)
      then Some(1.0 - moreOfRecordedTarget)
      else None
  }

  datatype Measurement =
    | Unusable(reasonCode: string, observedAt: int)
    | Usable(identity: real, spoof: real, observedAt: int)

  predicate PassesQuality(e: Evidence, policy: Policy) {
    && e.qualityScore.Some? && e.qualityScore.value >= policy.minimumScore
    && e.speechDurationMs.Some? && e.speechDurationMs.value >= policy.minimumSpeechDurationMs
    && forall code :: code in e.reasonCodes ==> code !in policy.rejectingReasonCodes
  }

  function Latest(a: int, b: int): int {
    if a < b then b else a
  }

  /** The scored components of a window: identity, then whichever spoof models reported. */
  function Components(identity: Evidence, fast: Option<Evidence>, deep: Option<Evidence>): seq<Evidence> {
    [identity] + (if fast.None? then [] else [fast.value]) + (if deep.None? then [] else [deep.value])
  }

  predicate AllReady(es: seq<Evidence>) {
    forall e :: e in es ==> e.readiness == Ready
  }

  predicate AllPassQuality(es: seq<Evidence>, policy: Policy) {
    forall e :: e in es ==> PassesQuality(e, policy)
  }

  function SpoofOf(e: Option<Evidence>): Option<real> {
    if e.None? then None else TargetScore(e.value, Spoof)
  }

  function Weighted(policy: Policy, fast: real, deep: real): real {
    fast * policy.fastWeight + deep * policy.deepWeight
  }

  /** Both spoof scores weighted, or the one that is there. */
  function Fuse(policy: Policy, fast: Option<real>, deep: Option<real>): Option<real> {
    if fast.Some? && deep.Some? then Some(Weighted(policy, fast.value, deep.value))
    else if fast.Some? then fast else deep
  }

  function NewestObserved(identity: Evidence, fast: Option<Evidence>, deep: Option<Evidence>): int {
    var spoken := if fast.None? then identity.observedAt else Latest(identity.observedAt, fast.value.observedAt);
    if deep.None? then spoken else Latest(spoken, deep.value.observedAt)
  }

  /** The part of a window's evaluation that does not depend on the current state: the gates, in their order,
      and the two fused scores. */
  function Measure(events: seq<Evidence>, policy: Policy): Measurement
    requires events != []
  {
    var insufficient := Find(events, EvidenceType.InsufficientEvidence);
    var identity := Find(events, Identity);
    var fast := Find(events, SpoofFast);
    var deep := Find(events, SpoofDeep);
    if insufficient.Some? then Unusable("AUDIO_INSUFFICIENT", insufficient.value.observedAt)
    else if Find(events, PipelineError).Some? then Unusable("PIPELINE_DEGRADED", events[0].observedAt)
    else if identity.None? || (fast.None? && deep.None?) then
      Unusable("EVIDENCE_COMPONENT_MISSING", events[0].observedAt)
    else if !AllReady(Components(identity.value, fast, deep)) then
      Unusable("MODEL_NOT_READY", events[0].observedAt)
    else if !AllPassQuality(Components(identity.value, fast, deep), policy) then
      Unusable("AUDIO_QUALITY_GATE_FAILED", events[0].observedAt)
    else
      var identityScore := TargetScore(identity.value, ExpectedSpeaker);
      var spoofScore := Fuse(policy, SpoofOf(fast), SpoofOf(deep));
      if identityScore.None? || spoofScore.None? then Unusable("SCORE_SEMANTICS_UNUSABLE", events[0].observedAt)
      else Usable(identityScore.value, spoofScore.value, NewestObserved(identity.value, fast, deep))
  }

  function IdentityThreshold(policy: Policy, current: RiskState): real {
    if current == Verified || current == Critical then policy.identityClear else policy.identityEnter
  }

  function SpoofThreshold(policy: Policy, current: RiskState): real {
    if current == HighRisk || current == Critical then policy.spoofClear else policy.spoofEnter
  }

  /** The two-by-two matrix. */
  function Quadrant(identityHigh: bool, spoofHigh: bool): RiskState {
    if identityHigh then if spoofHigh then Critical else Verified
    else if spoofHigh then HighRisk else Unverified
  }

  function Decide(policy: Policy, current: RiskState, identity: real, spoof: real): RiskState {
    Quadrant(identity >= IdentityThreshold(policy, current), spoof >= SpoofThreshold(policy, current))
  }

  function MatrixReason(state: RiskState): string {
    match state
    case Verified => "MATRIX_VERIFIED"
    case Unverified => "MATRIX_UNVERIFIED"
    case HighRisk => "MATRIX_HIGH_RISK"
    case Critical => "MATRIX_CRITICAL"
  }

  /** What is left of a window once its evidence has been measured. */
  datatype Reading = Reading(sequence: int, measured: Measurement)

  function DecideReading(policy: Policy, current: RiskState, r: Reading): WindowDecision {
    match r.measured
    case Unusable(reasonCode, observedAt) =>
      WindowDecision(InsufficientOutcome, None, reasonCode, r.sequence, observedAt)
    case Usable(identity, spoof, observedAt) =>
      var state := Decide(policy, current, identity, spoof);
      WindowDecision(Decided(state), Some(state), MatrixReason(state), r.sequence, observedAt)
  }

  function EvaluateWindow(events: seq<Evidence>, policy: Policy, current: RiskState): WindowDecision
    requires events != []
  {
    DecideReading(policy, current, Reading(events[0].windowSequence, Measure(events, policy)))
  }

  /** Scores that pass the gates are probabilities, whatever the recorded target and direction; a fused score exceeds 1
      by no more than the weights do. */
  lemma MeasureInUnitInterval(events: seq<Evidence>, policy: Policy)
    requires events != [] && policy.Parsed()
    ensures var m := Measure(events, policy);
      m.Usable? ==>
        && 0.0 <= m.identity <= 1.0 && 0.0 <= m.spoof <= 1.0 + WEIGHT_TOLERANCE
        && (policy.fastWeight + policy.deepWeight <= 1.0 ==> m.spoof <= 1.0)
  {
    var identity, fast, deep := Find(events, Identity), Find(events, SpoofFast), Find(events, SpoofDeep);
    if Measure(events, policy).Usable? {
      TargetScoreProbability(identity.value, ExpectedSpeaker);
      SpoofProbability(fast);
      SpoofProbability(deep);
      FuseBelow(policy, SpoofOf(fast), SpoofOf(deep));
    }
  }

  predicate Opposite(a: ScoreTarget, b: ScoreTarget) {
    (a == Bonafide && b == Spoof) || (a == Spoof && b == Bonafide)
  }

  /** The calibrated score whenever there is one. */
  function Score(e: Evidence): Option<real> {
    if e.calibratedScore.Some? then e.calibratedScore else e.rawScore
  }

  /** The event has a probability of the desired target or of its opposite, in either direction. */
  predicate Readable(e: Evidence, desired: ScoreTarget) {
    && Score(e).Some? && 0.0 <= Score(e).value <= 1.0 && e.scoreDirection != NotApplicable
    && e.scoreTarget.Some? && (e.scoreTarget.value == desired || Opposite(e.scoreTarget.value, desired))
  }

  /** The score counts as it stands when direction and target agree with what is asked for or are both reversed, and
      its complement counts when exactly one of them is. */
  function Shown(e: Evidence, desired: ScoreTarget): real
    requires Readable(e, desired)
  {
    if (e.scoreDirection == HigherMeansMore) == (e.scoreTarget.value == desired) then Score(e).value else 1.0 - Score(e).value
  }

  lemma TargetScoreMeaning(event: Evidence, desired: ScoreTarget)
    ensures TargetScore(event, desired) == if Readable(event, desired) then Some(Shown(event, desired)) else None
  {}

  predicate Component(e: Evidence) {
    e.evidenceType == Identity || e.evidenceType == SpoofFast || e.evidenceType == SpoofDeep
  }

  lemma {:induction false} FindExact(events: seq<Evidence>, t: EvidenceType)
    ensures Find(events, t).Some? ==> Find(events, t).value in events && Find(events, t).value.evidenceType == t
    ensures Find(events, t).None? <==> forall e :: e in events ==> e.evidenceType != t
  {
    if events != [] {
      FindExact(events[1..], t);
      assert events == [events[0]] + events[1..];
    }
  }

  lemma MeasuredWhen(events: seq<Evidence>, policy: Policy)
    requires events != []
    ensures var identity, fast, deep := Find(events, Identity), Find(events, SpoofFast), Find(events, SpoofDeep);
      Measure(events, policy).Usable? <==>
        && Find(events, EvidenceType.InsufficientEvidence).None? && Find(events, PipelineError).None?
        && identity.Some? && TargetScore(identity.value, ExpectedSpeaker).Some?
        && (SpoofOf(fast).Some? || SpoofOf(deep).Some?)
        && AllReady(Components(identity.value, fast, deep)) && AllPassQuality(Components(identity.value, fast, deep), policy)
  {}

  /** A window is measured exactly when nothing in it reports insufficient audio or a pipeline error, it has an
      identity score and a spoof score that can be read, and every component is ready and passes the quality gate. */
  lemma UsableExactly(events: seq<Evidence>, policy: Policy)
    requires events != []
    requires forall x, y :: x in events && y in events && x.evidenceType == y.evidenceType ==> x == y
    ensures Measure(events, policy).Usable? <==>
      && (forall e :: e in events ==> e.evidenceType != EvidenceType.InsufficientEvidence && e.evidenceType != PipelineError)
      && (forall e :: e in events && Component(e) ==> e.readiness == Ready && PassesQuality(e, policy))
      && (exists e :: e in events && e.evidenceType == Identity && Readable(e, ExpectedSpeaker))
      && exists e :: e in events && (e.evidenceType == SpoofFast || e.evidenceType == SpoofDeep) && Readable(e, Spoof)
  {
    var identity, fast, deep := Find(events, Identity), Find(events, SpoofFast), Find(events, SpoofDeep);
    MeasuredWhen(events, policy);
    FindExact(events, EvidenceType.InsufficientEvidence);
    FindExact(events, PipelineError);
    ScoresExact(events, identity, fast, deep);
    if identity.Some? {
      ComponentsExact(events, identity.value, fast, deep);
      GatesExact(events, Components(identity.value, fast, deep), policy);
    }
  }

  lemma ComponentsExact(events: seq<Evidence>, identity: Evidence, fast: Option<Evidence>, deep: Option<Evidence>)
    requires forall x, y :: x in events && y in events && x.evidenceType == y.evidenceType ==> x == y
    requires Find(events, Identity) == Some(identity) && Find(events, SpoofFast) == fast && Find(events, SpoofDeep) == deep
    ensures forall e :: e in Components(identity, fast, deep) <==> e in events && Component(e)
  {
    FindExact(events, Identity);
    FindExact(events, SpoofFast);
    FindExact(events, SpoofDeep);
  }

  lemma GatesExact(events: seq<Evidence>, components: seq<Evidence>, policy: Policy)
    requires forall e :: e in components <==> e in events && Component(e)
    ensures AllReady(components) && AllPassQuality(components, policy) <==>
      forall e :: e in events && Component(e) ==> e.readiness == Ready && PassesQuality(e, policy)
  {}

  lemma ScoresExact(events: seq<Evidence>, identity: Option<Evidence>, fast: Option<Evidence>, deep: Option<Evidence>)
    requires forall x, y :: x in events && y in events && x.evidenceType == y.evidenceType ==> x == y
    requires Find(events, Identity) == identity && Find(events, SpoofFast) == fast && Find(events, SpoofDeep) == deep
    ensures identity.Some? && TargetScore(identity.value, ExpectedSpeaker).Some? <==>
      exists e :: e in events && e.evidenceType == Identity && Readable(e, ExpectedSpeaker)
    ensures SpoofOf(fast).Some? || SpoofOf(deep).Some? <==>
      exists e :: e in events && (e.evidenceType == SpoofFast || e.evidenceType == SpoofDeep) && Readable(e, Spoof)
  {
    FindExact(events, Identity);
    FindExact(events, SpoofFast);
    FindExact(events, SpoofDeep);
    SpoofMeaning(fast);
    SpoofMeaning(deep);
    if identity.Some? { TargetScoreMeaning(identity.value, ExpectedSpeaker); }
  }

  lemma SpoofMeaning(e: Option<Evidence>)
    ensures SpoofOf(e) == if e.Some? && Readable(e.value, Spoof) then Some(Shown(e.value, Spoof)) else None
  {
    if e.Some? { TargetScoreMeaning(e.value, Spoof); }
  }

  predicate ShowsSpoof(e: Evidence) {
    (e.evidenceType == SpoofFast || e.evidenceType == SpoofDeep) && Readable(e, Spoof)
  }

  ghost predicate OnlySpoof(events: seq<Evidence>, e: Evidence) {
    ShowsSpoof(e) && forall o :: o in events && ShowsSpoof(o) ==> o == e
  }

  lemma FoundIs(events: seq<Evidence>, e: Evidence)
    requires forall x, y :: x in events && y in events && x.evidenceType == y.evidenceType ==> x == y
    requires e in events
    ensures Find(events, e.evidenceType) == Some(e)
  {
    FindExact(events, e.evidenceType);
  }

  lemma MeasuredAt(events: seq<Evidence>, policy: Policy)
    requires events != [] && Measure(events, policy).Usable?
    ensures Find(events, Identity).Some?
    ensures TargetScore(Find(events, Identity).value, ExpectedSpeaker) == Some(Measure(events, policy).identity)
    ensures Fuse(policy, SpoofOf(Find(events, SpoofFast)), SpoofOf(Find(events, SpoofDeep))) == Some(Measure(events, policy).spoof)
  {}

  lemma FusedBoth(policy: Policy, fast: Evidence, deep: Evidence)
    requires Readable(fast, Spoof) && Readable(deep, Spoof)
    ensures Fuse(policy, SpoofOf(Some(fast)), SpoofOf(Some(deep)))
         == Some(Weighted(policy, Shown(fast, Spoof), Shown(deep, Spoof)))
  {
    SpoofMeaning(Some(fast));
    SpoofMeaning(Some(deep));
  }

  lemma FusedOnly(events: seq<Evidence>, policy: Policy, e: Evidence)
    requires forall x, y :: x in events && y in events && x.evidenceType == y.evidenceType ==> x == y
    requires e in events && OnlySpoof(events, e)
    ensures Fuse(policy, SpoofOf(Find(events, SpoofFast)), SpoofOf(Find(events, SpoofDeep))) == Some(Shown(e, Spoof))
  {
    FoundIs(events, e);
    FindExact(events, SpoofFast);
    FindExact(events, SpoofDeep);
    SpoofMeaning(Find(events, SpoofFast));
    SpoofMeaning(Find(events, SpoofDeep));
  }

  /** What a measured window is measured at: the identity event's probability of the expected speaker, and the two spoof
      probabilities weighted, or the only one that can be read as it stands. */
  lemma MeasuredScores(events: seq<Evidence>, policy: Policy)
    requires events != [] && Measure(events, policy).Usable?
    requires forall x, y :: x in events && y in events && x.evidenceType == y.evidenceType ==> x == y
    ensures var m := Measure(events, policy);
      && (forall e :: e in events && e.evidenceType == Identity ==>
            Readable(e, ExpectedSpeaker) && m.identity == Shown(e, ExpectedSpeaker))
      && (forall f, d :: f in events && d in events && ShowsSpoof(f) && ShowsSpoof(d)
                         && f.evidenceType == SpoofFast && d.evidenceType == SpoofDeep ==>
            m.spoof == Weighted(policy, Shown(f, Spoof), Shown(d, Spoof)))
      && (forall e :: e in events && OnlySpoof(events, e) ==> m.spoof == Shown(e, Spoof))
  {
    MeasuredAt(events, policy);
    var identity, spoof := Measure(events, policy).identity, Measure(events, policy).spoof;
    forall e | e in events && e.evidenceType == Identity
      ensures Readable(e, ExpectedSpeaker) && identity == Shown(e, ExpectedSpeaker)
    {
      FoundIs(events, e);
      TargetScoreMeaning(e, ExpectedSpeaker);
    }
    forall f, d | f in events && d in events && ShowsSpoof(f) && ShowsSpoof(d)
                  && f.evidenceType == SpoofFast && d.evidenceType == SpoofDeep
      ensures spoof == Weighted(policy, Shown(f, Spoof), Shown(d, Spoof))
    {
      FoundIs(events, f);
      FoundIs(events, d);
      FusedBoth(policy, f, d);
    }
    forall e | e in events && OnlySpoof(events, e) ensures spoof == Shown(e, Spoof) {
      FusedOnly(events, policy, e);
    }
  }

  predicate Probability(r: Option<real>) {
    r.Some? ==> 0.0 <= r.value <= 1.0
  }

  lemma TargetScoreProbability(event: Evidence, desired: ScoreTarget)
    ensures Probability(TargetScore(event, desired))
  {}

  lemma SpoofProbability(e: Option<Evidence>)
    ensures Probability(SpoofOf(e))
  {
    if e.Some? { TargetScoreProbability(e.value, Spoof); }
  }

  lemma FuseBelow(policy: Policy, fast: Option<real>, deep: Option<real>)
    requires policy.Parsed() && Probability(fast) && Probability(deep)
    ensures var r := Fuse(policy, fast, deep);
      r.Some? ==> 0.0 <= r.value && (r.value <= 1.0 || r.value <= policy.fastWeight + policy.deepWeight)
  {
    if fast.Some? && deep.Some? {
      WeightedSum(fast.value, deep.value, policy.fastWeight, policy.deepWeight);
    }
  }

  lemma ScaledBelow(x: real, a: real)
    requires 0.0 <= x <= 1.0 && 0.0 <= a
    ensures 0.0 <= x * a <= a
  {
    assert (1.0 - x) * a >= 0.0;
  }

  lemma SumBelow(p: real, q: real, a: real, b: real)
    requires 0.0 <= p <= a && 0.0 <= q <= b
    ensures 0.0 <= p + q <= a + b
  {}

  lemma WeightedSum(x: real, y: real, a: real, b: real)
    requires 0.0 <= x <= 1.0 && 0.0 <= y <= 1.0 && 0.0 <= a && 0.0 <= b
    ensures 0.0 <= x * a + y * b <= a + b
  {
    ScaledBelow(x, a);
    ScaledBelow(y, b);
    SumBelow(x * a, y * b, a, b);
  }

  // ---------------------------------------------------------------- hysteresis

  datatype Fold = Fold(
    effective: RiskState,
    pending: Option<RiskState>,
    count: nat,
    previous: Option<int>,
    last: WindowDecision)

  function Severity(s: RiskState): nat {
    match s case Verified => 0 case Unverified => 1 case HighRisk => 2 case Critical => 3
  }

  /** How many consecutive windows must agree before the state moves from one to the other. */
  function Required(policy: Policy, from: RiskState, to: RiskState): nat {
    if (from == HighRisk || from == Critical) && Severity(to) < Severity(from)
    then policy.clearConsecutiveWindows
    else policy.entryConsecutiveWindows
  }

  /** What a decided window does to the five loop variables. */
  function Apply(policy: Policy, f: Fold, sequence: int, decision: WindowDecision): Fold {
    if decision.state.None? then f.(pending := None, count := 0, last := decision)
    else if decision.state.value == f.effective then
      f.(pending := None, count := 0, previous := Some(sequence), last := decision)
    else
      var gap := if f.previous.None? then 1 else sequence - f.previous.value;
      var contiguous := gap > 0 && gap <= policy.maximumWindowGap + 1;
      var count := if f.pending == decision.state && contiguous then f.count + 1 else 1;
      if count >= Required(policy, f.effective, decision.state.value)
      then Fold(decision.state.value, None, 0, Some(sequence), decision)
      else Fold(f.effective, decision.state, count, Some(sequence), decision)
  }

  function Step(policy: Policy, f: Fold, r: Reading): Fold {
    Apply(policy, f, r.sequence, DecideReading(policy, f.effective, r))
  }

  ghost function Run(policy: Policy, f: Fold, rs: seq<Reading>): Fold {
    if rs == [] then f else Step(policy, Run(policy, f, rs[..|rs| - 1]), rs[|rs| - 1])
  }

  /** Consecutive events of one window, grouped. */
  function Group(selected: seq<Evidence>): seq<Window> {
    if selected == [] then []
    else AddToGroups(Group(selected[..|selected| - 1]), selected[|selected| - 1])
  }

  function AddToGroups(ws: seq<Window>, e: Evidence): seq<Window> {
    if ws != [] && ws[|ws| - 1].sequence == e.windowSequence
    then ws[..|ws| - 1] + [Window(e.windowSequence, ws[|ws| - 1].events + [e])]
    else ws + [Window(e.windowSequence, [e])]
  }

  function Initial(selected: seq<Evidence>): Fold
    requires selected != []
  {
    Fold(Unverified, None, 0, None,
         WindowDecision(InsufficientOutcome, None, "EVIDENCE_COMPONENT_MISSING", 0, selected[0].observedAt))
  }

  datatype Verdict = Verdict(
    outcome: Outcome,
    effectiveState: RiskState,
    reasonCode: string,
    proposedInterventions: seq<InterventionType>,
    evidenceEventIds: seq<string>,
    maxWindowSequence: int,
    occurredAt: int,
    allScoresCalibrated: bool,
    calibrationVersions: set<string>,
    allModelsActiveAndTraceable: bool)

  function LatestObserved(es: seq<Evidence>): int
    requires es != []
  {
    if |es| == 1 then es[0].observedAt else Latest(es[0].observedAt, LatestObserved(es[1..]))
  }

  /** Everything of the verdict that follows the loop. */
  function Conclude(policy: Policy, selected: seq<Evidence>, f: Fold): Verdict
    requires selected != []
  {
    Verdict(
      f.last.outcome,
      f.effective,
      if f.last.state.Some? && f.last.state.value != f.effective then "HYSTERESIS_PENDING" else f.last.reasonCode,
      if f.effective == Critical then policy.criticalInterventions
      else if f.effective == HighRisk then policy.highRiskInterventions else [],
      seq(|selected|, i requires 0 <= i < |selected| => selected[i].id),
      selected[|selected| - 1].windowSequence,
      LatestObserved(selected),
      (exists e :: e in selected && e.readiness == Ready)
        && forall e :: e in selected && e.readiness == Ready ==>
             e.mode == Calibrated && e.calibratedScore.Some? && e.calibrationVersion.Some?,
      set e | e in selected && e.readiness == Ready && e.calibrationVersion.Some? :: e.calibrationVersion.value,
      (exists e :: e in selected && e.readiness == Ready)
        && forall e :: e in selected && e.readiness == Ready ==>
             e.modelStatus == Some(Active) && e.modelTraceMatches && e.scoreTarget.Some?)
  }

  /** Groups of windows in strictly ascending order, each holding events of its window only. */
  ghost predicate WellGrouped(ws: seq<Window>) {
    && (forall i :: 0 <= i < |ws| ==> ws[i].events != [] && ws[i].events[0].windowSequence == ws[i].sequence)
    && forall i, j :: 0 <= i < j < |ws| ==> ws[i].sequence < ws[j].sequence
  }

  lemma GroupLast(selected: seq<Evidence>)
    ensures (Group(selected) == []) == (selected == [])
    ensures selected != [] ==>
      Group(selected)[|Group(selected)| - 1].sequence == selected[|selected| - 1].windowSequence
  {}

  lemma {:induction false} GroupShape(selected: seq<Evidence>)
    requires Sorted(selected)
    ensures WellGrouped(Group(selected))
    ensures (Group(selected) == []) == (selected == [])
    ensures selected != [] ==>
      Group(selected)[|Group(selected)| - 1].sequence == selected[|selected| - 1].windowSequence
  {
    GroupLast(selected);
    if selected != [] {
      var init := selected[..|selected| - 1];
      GroupShape(init);
      GroupLast(init);
      if init != [] {
        assert Precedes(selected[|selected| - 2], selected[|selected| - 1]);
      }
      AddKeepsShape(Group(init), selected[|selected| - 1]);
    }
  }

  lemma AddKeepsShape(ws: seq<Window>, e: Evidence)
    requires WellGrouped(ws)
    requires ws != [] ==> ws[|ws| - 1].sequence <= e.windowSequence
    ensures WellGrouped(AddToGroups(ws, e))
  {}

  ghost function Read(policy: Policy, ws: seq<Window>): (rs: seq<Reading>)
    requires WellGrouped(ws)
    ensures |rs| == |ws|
    ensures forall i :: 0 <= i < |ws| ==> rs[i] == Reading(ws[i].sequence, Measure(ws[i].events, policy))
  {
    seq(|ws|, i requires 0 <= i < |ws| => Reading(ws[i].sequence, Measure(ws[i].events, policy)))
  }

  /** The readings of a selection, in window order. */
  ghost function Readings(policy: Policy, selected: seq<Evidence>): seq<Reading>
    requires Sorted(selected)
  {
    GroupShape(selected);
    Read(policy, Group(selected))
  }

  /** The verdict over a collection of accepted evidence. */
  ghost function Evaluate(evidence: seq<Evidence>, policy: Policy): Result<Verdict, string> {
    if evidence == [] then Err("Accepted risk evidence is required.")
    else
      SelectSorted(evidence);
      SelectEmpty(evidence);
      var selected := Select(evidence);
      Ok(Conclude(policy, selected, Run(policy, Initial(selected), Readings(policy, selected))))
  }

  /** The newest window of the evidence cannot be used. */
  ghost predicate NewestUnusable(evidence: seq<Evidence>, policy: Policy)
    requires evidence != []
  {
    SelectSorted(evidence);
    SelectEmpty(evidence);
    GroupShape(Select(evidence));
    var windows := Group(Select(evidence));
    Measure(windows[|windows| - 1].events, policy).Unusable?
  }

  /** The verdict's outcome is that of the newest window, whatever state the earlier ones led to. */
  lemma OutcomeOfNewest(evidence: seq<Evidence>, policy: Policy)
    requires evidence != []
    ensures Evaluate(evidence, policy).Ok?
    ensures Evaluate(evidence, policy).value.outcome == InsufficientOutcome <==> NewestUnusable(evidence, policy)
  {
    SelectSorted(evidence);
    SelectEmpty(evidence);
    GroupShape(Select(evidence));
    LastDecides(policy, Initial(Select(evidence)), Readings(policy, Select(evidence)));
  }

  lemma LastDecides(policy: Policy, f: Fold, rs: seq<Reading>)
    requires rs != []
    ensures Run(policy, f, rs).last.outcome == InsufficientOutcome <==> rs[|rs| - 1].measured.Unusable?
  {}

  /** With an entry count of one, a single usable window of identity and spoof evidence sets the state at once. */
  lemma OneWindowVerdict(policy: Policy, identity: Evidence, spoof: Evidence)
    requires identity.evidenceType == Identity && spoof.evidenceType == SpoofFast
    requires identity.windowSequence == spoof.windowSequence
    requires AllReady([identity, spoof]) && AllPassQuality([identity, spoof], policy)
    requires TargetScore(identity, ExpectedSpeaker).Some? && TargetScore(spoof, Spoof).Some?
    requires policy.entryConsecutiveWindows == 1
    ensures Evaluate([identity, spoof], policy).Ok?
    ensures Evaluate([identity, spoof], policy).value.effectiveState
         == Decide(policy, Unverified, TargetScore(identity, ExpectedSpeaker).value, TargetScore(spoof, Spoof).value)
  {
    var events := [identity, spoof];
    PairSelected(identity, spoof);
    PairMeasured(policy, identity, spoof);
    assert Group(events[..1]) == [Window(identity.windowSequence, [identity])] by {
      assert events[..1][..0] == [] && Group([]) == [];
    }
    assert Group(events) == [Window(identity.windowSequence, events)];
    SelectSorted(events);
    var rs := Readings(policy, events);
    var start := Initial(events);
    assert rs[..0] == [];
    assert Run(policy, start, rs) == Step(policy, start, rs[0]);
  }

  lemma PairSelected(identity: Evidence, spoof: Evidence)
    requires identity.evidenceType == Identity && spoof.evidenceType == SpoofFast
    requires identity.windowSequence == spoof.windowSequence
    ensures Select([identity, spoof]) == [identity, spoof]
  {
    assert [identity, spoof][..1] == [identity] && [identity][..0] == [];
    assert Select([]) == [];
    assert Select([identity]) == [identity];
    assert [identity][1..] == [];
    assert Upsert([identity], spoof) == [identity] + Upsert([], spoof);
    assert Select([identity, spoof]) == Upsert(Select([identity]), spoof);
  }

  lemma PairMeasured(policy: Policy, identity: Evidence, spoof: Evidence)
    requires identity.evidenceType == Identity && spoof.evidenceType == SpoofFast
    requires AllReady([identity, spoof]) && AllPassQuality([identity, spoof], policy)
    requires TargetScore(identity, ExpectedSpeaker).Some? && TargetScore(spoof, Spoof).Some?
    ensures var m := Measure([identity, spoof], policy);
      m.Usable? && m.identity == TargetScore(identity, ExpectedSpeaker).value && m.spoof == TargetScore(spoof, Spoof).value
  {
    var events := [identity, spoof];
    assert events[1..] == [spoof] && [spoof][1..] == [];
    assert Find([], SpoofDeep) == None && Find([], PipelineError) == None && Find([], EvidenceType.InsufficientEvidence) == None;
    assert Find([spoof], SpoofDeep) == None && Find([spoof], SpoofFast) == Some(spoof);
    assert Find([spoof], PipelineError) == None && Find([spoof], EvidenceType.InsufficientEvidence) == None;
    assert Components(identity, Some(spoof), None) == events;
  }

  ghost predicate Increasing(keys: seq<int>) {
    forall i, j :: 0 <= i < j < |keys| ==> keys[i] < keys[j]
  }

  lemma IncreasingLast(keys: seq<int>)
    requires Increasing(keys) && keys != []
    ensures forall i :: 0 <= i < |keys| ==> keys[i] <= keys[|keys| - 1]
  {}

  /** The entries of a map in its insertion order. */
  function Entries(groups: map<int, seq<Evidence>>, keys: seq<int>): (ws: seq<Window>)
    requires forall i :: 0 <= i < |keys| ==> keys[i] in groups
    ensures |ws| == |keys|
    ensures forall i :: 0 <= i < |keys| ==> ws[i] == Window(keys[i], groups[keys[i]])
  {
    if keys == [] then []
    else Entries(groups, keys[..|keys| - 1]) + [Window(keys[|keys| - 1], groups[keys[|keys| - 1]])]
  }

  /** A map and its insertion order hold exactly the given windows. */
  ghost predicate Groups(groups: map<int, seq<Evidence>>, keys: seq<int>, ws: seq<Window>) {
    && Increasing(keys)
    && (forall i :: 0 <= i < |keys| ==> keys[i] in groups)
    && (forall k :: k in groups ==> k in keys)
    && Entries(groups, keys) == ws
  }

  function Append(groups: map<int, seq<Evidence>>, e: Evidence): map<int, seq<Evidence>> {
    groups[e.windowSequence := if e.windowSequence in groups then groups[e.windowSequence] + [e] else [e]]
  }

  lemma AppendToLast(groups: map<int, seq<Evidence>>, keys: seq<int>, ws: seq<Window>, e: Evidence)
    requires Groups(groups, keys, ws) && e.windowSequence in groups
    requires forall i :: 0 <= i < |keys| ==> keys[i] <= e.windowSequence
    ensures ws != [] && ws[|ws| - 1].sequence == e.windowSequence
    ensures Groups(Append(groups, e), keys,
                   ws[..|ws| - 1] + [Window(e.windowSequence, ws[|ws| - 1].events + [e])])
  {
    var i :| 0 <= i < |keys| && keys[i] == e.windowSequence;
    IncreasingLast(keys);
    var after := ws[..|ws| - 1] + [Window(e.windowSequence, ws[|ws| - 1].events + [e])];
    var entries := Entries(Append(groups, e), keys);
    assert forall j :: 0 <= j < |keys| - 1 ==> keys[j] < keys[|keys| - 1];
    assert forall j :: 0 <= j < |keys| - 1 ==> entries[j] == ws[j];
    assert entries[|keys| - 1] == after[|keys| - 1];
    assert entries == after;
  }

  lemma IncreasingSnoc(keys: seq<int>, k: int)
    requires Increasing(keys) && k !in keys
    requires forall i :: 0 <= i < |keys| ==> keys[i] <= k
    ensures Increasing(keys + [k])
  {
    forall i | 0 <= i < |keys| ensures keys[i] < k {
      assert keys[i] in keys;
    }
  }

  lemma EntriesSnoc(groups: map<int, seq<Evidence>>, keys: seq<int>, k: int)
    requires k in groups && forall i :: 0 <= i < |keys| ==> keys[i] in groups
    ensures Entries(groups, keys + [k]) == Entries(groups, keys) + [Window(k, groups[k])]
  {
    assert (keys + [k])[..|keys + [k]| - 1] == keys;
  }

  lemma KeysSnoc(groups: map<int, seq<Evidence>>, keys: seq<int>, e: Evidence)
    requires (forall i :: 0 <= i < |keys| ==> keys[i] in groups) && forall k :: k in groups ==> k in keys
    ensures var keys' := keys + [e.windowSequence];
      && (forall i :: 0 <= i < |keys'| ==> keys'[i] in Append(groups, e))
      && forall k :: k in Append(groups, e) ==> k in keys'
  {}

  lemma AppendNew(groups: map<int, seq<Evidence>>, keys: seq<int>, ws: seq<Window>, e: Evidence)
    requires Groups(groups, keys, ws) && e.windowSequence !in groups
    requires forall i :: 0 <= i < |keys| ==> keys[i] <= e.windowSequence
    ensures ws != [] ==> ws[|ws| - 1].sequence != e.windowSequence
    ensures Groups(Append(groups, e), keys + [e.windowSequence], ws + [Window(e.windowSequence, [e])])
  {
    KeysSnoc(groups, keys, e);
    EntriesFrame(groups, keys, e);
    EntriesSnoc(Append(groups, e), keys, e.windowSequence);
    IncreasingSnoc(keys, e.windowSequence);
  }

  lemma {:induction false} EntriesFrame(groups: map<int, seq<Evidence>>, keys: seq<int>, e: Evidence)
    requires forall i :: 0 <= i < |keys| ==> keys[i] in groups
    requires e.windowSequence !in groups
    ensures Entries(Append(groups, e), keys) == Entries(groups, keys)
  {
    if keys != [] {
      EntriesFrame(groups, keys[..|keys| - 1], e);
    }
  }

  method GroupByWindow(selected: seq<Evidence>) returns (windows: seq<Window>)
    requires Sorted(selected)
    ensures windows == Group(selected)
  {
    var byWindow: map<int, seq<Evidence>> := map[];
    var keys: seq<int> := [];
    for i := 0 to |selected|
      invariant Groups(byWindow, keys, Group(selected[..i]))
    {
      var event := selected[i];
      assert selected[..i + 1][..i] == selected[..i];
      GroupShape(selected[..i]);
      assert i > 0 ==> Precedes(selected[i - 1], event);
      assert forall j :: 0 <= j < |keys| ==> keys[j] <= event.windowSequence;
      ghost var ws := Group(selected[..i]);
      if event.windowSequence in byWindow {
        AppendToLast(byWindow, keys, ws, event);
        byWindow := Append(byWindow, event);
      } else {
        AppendNew(byWindow, keys, ws, event);
        byWindow := Append(byWindow, event);
        keys := keys + [event.windowSequence];
      }
    }
    assert selected[..|selected|] == selected;
    windows := Entries(byWindow, keys);
  }

  method EvaluateRiskEvidence(evidence: seq<Evidence>, policy: Policy) returns (r: Result<Verdict, string>)
    ensures r == Evaluate(evidence, policy)
  {
    var selected := SelectLatest(evidence);
    SelectEmpty(evidence);
    if |selected| == 0 {
      return Err("Accepted risk evidence is required.");
    }
    SelectSorted(evidence);
    var windows := GroupByWindow(selected);
    GroupShape(selected);
    // The keys are already ascending, so sorting the entries by key changes nothing.
    var f := FoldWindows(policy, selected[0].observedAt, windows);
    r := Ok(Conclude(policy, selected, f));
  }

  /** The loop over the windows, with its five local variables. */
  method FoldWindows(policy: Policy, observedAt: int, windows: seq<Window>) returns (f: Fold)
    requires WellGrouped(windows)
    ensures f == Run(policy,
      Fold(Unverified, None, 0, None,
           WindowDecision(InsufficientOutcome, None, "EVIDENCE_COMPONENT_MISSING", 0, observedAt)),
      Read(policy, windows))
  {
    var effectiveState := Unverified;
    var pendingState: Option<RiskState> := None;
    var pendingCount := 0;
    var previousValidSequence: Option<int> := None;
    var lastDecision := WindowDecision(InsufficientOutcome, None, "EVIDENCE_COMPONENT_MISSING", 0, observedAt);
    ghost var start := Fold(effectiveState, pendingState, pendingCount, previousValidSequence, lastDecision);
    ghost var readings := Read(policy, windows);
    for i := 0 to |windows|
      invariant Fold(effectiveState, pendingState, pendingCount, previousValidSequence, lastDecision)
        == Run(policy, start, readings[..i])
    {
      assert readings[..i + 1][..i] == readings[..i];
      lastDecision := EvaluateWindow(windows[i].events, policy, effectiveState);
      assert lastDecision == DecideReading(policy, effectiveState, readings[i]);
      effectiveState, pendingState, pendingCount, previousValidSequence :=
        ApplyDecision(policy, windows[i].sequence, lastDecision,
                      effectiveState, pendingState, pendingCount, previousValidSequence);
    }
    assert readings[..|readings|] == readings;
    f := Fold(effectiveState, pendingState, pendingCount, previousValidSequence, lastDecision);
  }

  /** The body of that loop after the evaluation of the window. */
  method ApplyDecision(policy: Policy, sequence: int, decision: WindowDecision,
                       effective: RiskState, pending: Option<RiskState>, count: nat, previous: Option<int>)
    returns (effectiveState: RiskState, pendingState: Option<RiskState>, pendingCount: nat, previousValidSequence: Option<int>)
    ensures forall last ::
      (Fold(effectiveState, pendingState, pendingCount, previousValidSequence, decision)
       == Apply(policy, Fold(effective, pending, count, previous, last), sequence, decision))
  {
    effectiveState, pendingState, pendingCount, previousValidSequence := effective, pending, count, previous;
    if decision.state == None {
      pendingState := None;
      pendingCount := 0;
      return;
    }
    if decision.state == Some(effectiveState) {
      pendingState := None;
      pendingCount := 0;
      previousValidSequence := Some(sequence);
      return;
    }
    var gap := if previousValidSequence == None then 1 else sequence - previousValidSequence.value;
    var contiguous := gap > 0 && gap <= policy.maximumWindowGap + 1;
    pendingCount := if pendingState == decision.state && contiguous then pendingCount + 1 else 1;
    pendingState := decision.state;
    previousValidSequence := Some(sequence);
    var clearing := (effectiveState == HighRisk || effectiveState == Critical)
      && Severity(decision.state.value) < Severity(effectiveState);
    var required := if clearing then policy.clearConsecutiveWindows else policy.entryConsecutiveWindows;
    if pendingCount >= required {
      effectiveState := decision.state.value;
      pendingState := None;
      pendingCount := 0;
    }
  }
}

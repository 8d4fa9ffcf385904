/**
 Interventions between executor workers, users and the expiry job. Reads, guarded updates and provider calls are
 separate steps that interleave freely, and every worker or user may stop between two of them.
 */
module Interventions {
  import opened Wrappers
  import opened Leases

  datatype Status = Required | Acknowledged | InProgress | Satisfied | Declined | Expired | Cancelled | FailedStatus

  datatype ChallengeStatus = ChallengePending | ChallengePassed | ChallengeFailed | ChallengeExpired | ChallengeCancelled

  /** `hold` says whether this is a protected-action hold, `reference` whether it names the action. */
  datatype Row = Row(
    hold: bool,
    reference: bool,
    demo: bool,
    status: Status,
    attempts: nat,
    lease: Option<Lease>,
    nextAttemptAt: Option<int>,
    expiresAt: Option<int>,
    resolved: bool)

  datatype Challenge = Challenge(intervention: nat, status: ChallengeStatus, expiresAt: int)

  /** `checked` says whether the table carries the lifecycle constraint of the schema. */
  datatype Config = Config(batchSize: nat, maximumAttempts: nat, leaseMs: nat, retryBaseMs: nat, checked: bool)

  function Next(s: Status): set<Status> {
    match s
    case Required => {Acknowledged, InProgress, Expired, Cancelled, FailedStatus}
    case Acknowledged => {InProgress, Expired, Cancelled, FailedStatus}
    case InProgress => {Satisfied, Declined, Expired, FailedStatus}
    case _ => {}
  }

  function ChallengeNext(s: ChallengeStatus): set<ChallengeStatus> {
    match s
    case ChallengePending => {ChallengePassed, ChallengeFailed, ChallengeExpired, ChallengeCancelled}
    case _ => {}
  }

  predicate Terminal(s: Status) {
    s != Required && s != Acknowledged && s != InProgress
  }

  /** The schema's check: a row in a terminal status carries the time of its resolution. */
  predicate LifecycleOk(row: Row) {
    Terminal(row.status) ==> row.resolved
  }

  // ---------------------------------------------------------------- guarded updates

  /** updateInterventionStatus; None when the status has changed meanwhile. */
  function MoveRow(row: Row, expected: Status, next: Status): Option<Row> {
    if row.status != expected then None
    else if Terminal(next) then Some(row.(status := next, resolved := true, lease := None, nextAttemptAt := None))
    else Some(row.(status := next))
  }

  predicate Eligible(config: Config, row: Row, now: int) {
    && row.demo && row.status == Required && row.attempts < config.maximumAttempts
    && (row.nextAttemptAt.None? || row.nextAttemptAt.value <= now)
    && LeaseFree(row.lease, now)
  }

  function ClaimRow(row: Row, attempts: nat, now: int, lease: Lease): Option<Row> {
    if row.demo && row.status == Required && row.attempts == attempts && LeaseFree(row.lease, now)
    then Some(row.(attempts := attempts + 1, lease := Some(lease), nextAttemptAt := None))
    else None
  }

  /** What an executor remembers of its current claim. */
  datatype Record = Record(row: nat, attempt: nat, lease: nat)

  predicate Owns(row: Row, record: Record) {
    row.demo && row.status == Required && row.attempts == record.attempt
    && row.lease.Some? && row.lease.value.id == record.lease
  }

  /** After a successful dispatch. Whether a row matched is not looked at. */
  function CompleteRow(row: Row, record: Record): Row {
    if Owns(row, record) then row.(status := InProgress, nextAttemptAt := None, lease := None) else row
  }

  /** After a failed one; None when the database refuses the row. */
  function FailRow(config: Config, row: Row, record: Record, now: int): Option<Row> {
    if !Owns(row, record) then Some(row)
    else
      var exhausted := record.attempt >= config.maximumAttempts;
      var delay := Delay(config.retryBaseMs, record.attempt);
      var updated := row.(status := if exhausted then FailedStatus else Required,
                          nextAttemptAt := if exhausted then None else Some(now + delay), lease := None);
      if config.checked && !LifecycleOk(updated) then None else Some(updated)
  }

  function ExpireRow(row: Row, now: int): Row {
    if row.expiresAt.Some? && row.expiresAt.value <= now && (row.status == Required || row.status == Acknowledged)
    then row.(status := Expired, resolved := true, lease := None, nextAttemptAt := None)
    else row
  }

  function ExpireChallenge(c: Challenge, now: int): Challenge {
    if c.expiresAt <= now && c.status == ChallengePending then c.(status := ChallengeExpired) else c
  }

  function CompleteChallenge(c: Challenge, passed: bool, now: int): Challenge {
    if c.status == ChallengePending && c.expiresAt > now
    then c.(status := if passed then ChallengePassed else ChallengeFailed) else c
  }

  // ---------------------------------------------------------------- users

  /** Between reading an intervention and writing it: the status read and the one to be written. Hold and release
      call their provider in between; a release also remembers the challenge it has checked. */
  datatype User =
    | Resting
    | Writing(row: nat, expected: Status, next: Status)
    | Releasing(row: nat, challenge: nat)

  datatype Intent = Acknowledge | Cancel | Hold

  function Target(intent: Intent): Status {
    match intent
    case Acknowledge => Acknowledged
    case Cancel => Cancelled
    case Hold => InProgress
  }

  /** The checks between the read and the write of acknowledge, cancel and hold. */
  function ReadIntent(rows: seq<Row>, i: nat, intent: Intent): User {
    if i >= |rows| then Resting
    else
      var current := rows[i];
      if intent == Hold && (!current.hold || !current.reference) then Resting
      else if current.status == Target(intent) then Resting
      else if intent == Cancel && current.status == InProgress then Resting
      else if Target(intent) !in Next(current.status) then Resting
      else Writing(i, current.status, Target(intent))
  }

  /** The checks of releaseAfterIndependentVerification. */
  function ReadRelease(rows: seq<Row>, challenges: seq<Challenge>, i: nat, c: nat, now: int): User {
    if i >= |rows| || c >= |challenges| then Resting
    else if !rows[i].hold || !rows[i].reference || rows[i].status != InProgress
         || challenges[c].intervention != i || challenges[c].status != ChallengePassed || challenges[c].expiresAt <= now
    then Resting
    else Releasing(i, c)
  }

  function WriteUser(rows: seq<Row>, user: User): (r: seq<Row>)
    ensures |r| == |rows|
  {
    match user
    case Resting => rows
    case Writing(i, expected, next) =>
      if i >= |rows| then rows
      else
        var moved := MoveRow(rows[i], expected, next);
        if moved.None? then rows else rows[i := moved.value]
    case Releasing(i, _) =>
      if i >= |rows| then rows
      else
        var moved := MoveRow(rows[i], InProgress, Satisfied);
        if moved.None? then rows else rows[i := moved.value]
  }

  // ---------------------------------------------------------------- executors

  datatype Candidate = Candidate(row: nat, attempts: nat)

  datatype Executor =
    | Waiting
    | Scanning(now: int, candidates: seq<Candidate>)
    | Dispatching(now: int, candidates: seq<Candidate>, record: Record)
    | Completing(now: int, candidates: seq<Candidate>, record: Record)
    | Failing(now: int, candidates: seq<Candidate>, record: Record)

  datatype System = System(
    clock: int,
    rows: seq<Row>,
    challenges: seq<Challenge>,
    users: seq<User>,
    executors: seq<Executor>,
    nextLease: nat)

  datatype Step =
    | Tick(elapsed: nat)
    | Propose(hold: bool, reference: bool, demo: bool, expiresAt: Option<int>)
    | Challenged(row: nat, until: int)
    | Answer(challenge: nat, passed: bool)
    | Expire
    | Read(u: nat, row: nat, intent: Intent)
    | Release(u: nat, row: nat, challenge: nat)
    | Write(u: nat)
    | Leave(u: nat)
    | Scan(e: nat, selected: seq<nat>)
    | Claim(e: nat)
    | Dispatch(e: nat, done: bool)
    | Settle(e: nat)
    | Crash(e: nat)

  predicate Selectable(config: Config, s: System, selected: seq<nat>) {
    && |selected| <= config.batchSize
    && forall i :: 0 <= i < |selected| ==> selected[i] < |s.rows| && Eligible(config, s.rows[selected[i]], s.clock)
  }

  function Snapshot(rows: seq<Row>, selected: seq<nat>): (candidates: seq<Candidate>)
    requires forall i :: 0 <= i < |selected| ==> selected[i] < |rows|
    ensures |candidates| == |selected|
    ensures forall i :: 0 <= i < |selected| ==> candidates[i] == Candidate(selected[i], rows[selected[i]].attempts)
  {
    seq(|selected|, i requires 0 <= i < |selected| => Candidate(selected[i], rows[selected[i]].attempts))
  }

  function ClaimStep(config: Config, s: System, e: nat): System
    requires e < |s.executors| && s.executors[e].Scanning?
  {
    var x := s.executors[e];
    if x.candidates == [] then s.(executors := s.executors[e := Waiting])
    else
      var c, rest := x.candidates[0], x.candidates[1..];
      var lease := Lease(s.nextLease, s.clock + config.leaseMs);
      if c.row >= |s.rows| || ClaimRow(s.rows[c.row], c.attempts, x.now, lease).None?
      then s.(executors := s.executors[e := Scanning(x.now, rest)])
      else s.(rows := s.rows[c.row := ClaimRow(s.rows[c.row], c.attempts, x.now, lease).value],
              executors := s.executors[e := Dispatching(x.now, rest, Record(c.row, c.attempts + 1, lease.id))],
              nextLease := s.nextLease + 1)
  }

  /** The update after the dispatch. A refused one throws out of the whole batch. */
  function SettleStep(config: Config, s: System, e: nat): System
    requires e < |s.executors| && (s.executors[e].Completing? || s.executors[e].Failing?)
  {
    var x := s.executors[e];
    var r := x.record.row;
    if r >= |s.rows| then s
    else
      var updated := if x.Completing? then Some(CompleteRow(s.rows[r], x.record))
                     else FailRow(config, s.rows[r], x.record, s.clock);
      if updated.None? then s.(executors := s.executors[e := Waiting])
      else s.(rows := s.rows[r := updated.value], executors := s.executors[e := Scanning(x.now, x.candidates)])
  }

  function Perform(config: Config, s: System, step: Step): System {
    match step
    case Tick(elapsed) => s.(clock := s.clock + elapsed)
    case Propose(hold, reference, demo, expiresAt) =>
      s.(rows := s.rows + [Row(hold, reference, demo, Required, 0, None, None, expiresAt, false)])
    case Challenged(row, until) =>
      if row < |s.rows| then s.(challenges := s.challenges + [Challenge(row, ChallengePending, until)]) else s
    case Answer(c, passed) =>
      if c < |s.challenges|
      then s.(challenges := s.challenges[c := CompleteChallenge(s.challenges[c], passed, s.clock)]) else s
    case Expire =>
      s.(rows := seq(|s.rows|, i requires 0 <= i < |s.rows| => ExpireRow(s.rows[i], s.clock)),
         challenges := seq(|s.challenges|, i requires 0 <= i < |s.challenges| => ExpireChallenge(s.challenges[i], s.clock)))
    case Read(u, row, intent) =>
      if u < |s.users| && s.users[u].Resting? then s.(users := s.users[u := ReadIntent(s.rows, row, intent)]) else s
    case Release(u, row, c) =>
      if u < |s.users| && s.users[u].Resting?
      then s.(users := s.users[u := ReadRelease(s.rows, s.challenges, row, c, s.clock)]) else s
    case Write(u) =>
      if u < |s.users| then s.(rows := WriteUser(s.rows, s.users[u]), users := s.users[u := Resting]) else s
    case Leave(u) => if u < |s.users| then s.(users := s.users[u := Resting]) else s
    case Scan(e, selected) =>
      if e < |s.executors| && s.executors[e].Waiting? && Selectable(config, s, selected)
      then s.(executors := s.executors[e := Scanning(s.clock, Snapshot(s.rows, selected))]) else s
    case Claim(e) => if e < |s.executors| && s.executors[e].Scanning? then ClaimStep(config, s, e) else s
    case Dispatch(e, done) =>
      if e < |s.executors| && s.executors[e].Dispatching? then
        var x := s.executors[e];
        s.(executors := s.executors[e := if done then Completing(x.now, x.candidates, x.record)
                                         else Failing(x.now, x.candidates, x.record)])
      else s
    case Settle(e) =>
      if e < |s.executors| && (s.executors[e].Completing? || s.executors[e].Failing?) then SettleStep(config, s, e) else s
    case Crash(e) => if e < |s.executors| then s.(executors := s.executors[e := Waiting]) else s
  }

  function Execute(config: Config, s: System, steps: seq<Step>): System {
    if steps == [] then s else Perform(config, Execute(config, s, steps[..|steps| - 1]), steps[|steps| - 1])
  }

  function Empty(users: nat, executors: nat): System {
    System(0, [], [], seq(users, _ => Resting), seq(executors, _ => Waiting), 0)
  }
}

/**
 The security-event outbox: workers claim rows under a lease, publish them, and mark them delivered or failed. Every
 database statement is one guarded step, workers interleave freely, and each may stop between any two steps.
 */
module Outbox {
  import opened Wrappers
  import opened Leases

  datatype AlertStatus = AlertPending | AlertDelivered | AlertFailed

  /** A row of the outbox. `wellFormed` stands for the checks of toSecurityEvent on columns that never change. */
  datatype Row = Row(
    status: AlertStatus,
    attempts: nat,
    lease: Option<Lease>,
    nextAttemptAt: Option<int>,
    wellFormed: bool)

  /** The ranges the environment schema enforces, but for its upper bounds. */
  datatype OutboxConfig = OutboxConfig(batchSize: nat, maximumAttempts: nat, leaseMs: nat, retryBaseMs: nat)
  {
    ghost predicate Valid() {
      batchSize >= 1 && maximumAttempts >= 1 && leaseMs >= 1000 && retryBaseMs >= 10
    }
  }

  /** What a worker remembers of a row it has claimed. */
  datatype Record = Record(worker: nat, row: nat, attempt: nat, lease: Lease)

  /** The filter of the claiming query. */
  predicate Eligible(row: Row, maximumAttempts: nat, now: int) {
    && row.status == AlertPending
    && row.attempts < maximumAttempts
    && (row.nextAttemptAt.None? || row.nextAttemptAt.value <= now)
    && LeaseFree(row.lease, now)
  }

  /** The guarded update of a claim; None when no row matches. */
  function ClaimRow(row: Row, candidateAttempts: nat, now: int, lease: Lease): Option<Row> {
    if row.status == AlertPending && row.attempts == candidateAttempts && LeaseFree(row.lease, now)
    then Some(row.(attempts := row.attempts + 1, lease := Some(lease), nextAttemptAt := None))
    else None
  }

  /** The guard of both marks. */
  predicate Owns(row: Row, record: Record) {
    row.status == AlertPending && row.attempts == record.attempt
    && row.lease.Some? && row.lease.value.id == record.lease.id
  }

  function DeliverRow(row: Row, record: Record): Option<Row> {
    if Owns(row, record) then Some(row.(status := AlertDelivered, lease := None, nextAttemptAt := None)) else None
  }

  function Backoff(config: OutboxConfig, attempt: nat): nat {
    Delay(config.retryBaseMs, attempt)
  }

  function FailRow(config: OutboxConfig, row: Row, record: Record, now: int): Option<Row> {
    if !Owns(row, record) then None
    else if record.attempt >= config.maximumAttempts
    then Some(row.(status := AlertFailed, lease := None, nextAttemptAt := None))
    else Some(row.(lease := None, nextAttemptAt := Some(now + Backoff(config, record.attempt))))
  }

  // ---------------------------------------------------------------- the machine

  /** What has happened to a row: when each attempt was claimed, for which attempts the publisher was called, and for
      which of them it accepted the event. */
  datatype Trace = Trace(starts: seq<int>, publishes: seq<nat>, accepted: set<nat>)

  datatype Candidate = Candidate(row: nat, attempts: nat)

  datatype Worker =
    | Idle
    | Claiming(now: int, candidates: seq<Candidate>, claimed: seq<Record>)
    | Dispatching(records: seq<Record>)
    | Marking(records: seq<Record>)
    | Failing(records: seq<Record>)

  datatype State = State(clock: int, rows: seq<Row>, traces: seq<Trace>, workers: seq<Worker>, nextLease: nat)

  datatype Step =
    | Insert(wellFormed: bool)
    | Tick(elapsed: nat)
    | Begin(w: nat, selected: seq<nat>)
    | ClaimNext(w: nat)
    | Dispatch(w: nat, published: bool)
    | Mark(w: nat)
    | MarkError(w: nat)
    | Crash(w: nat)

  function Become(s: State, w: nat, worker: Worker): State
    requires w < |s.workers|
  {
    s.(workers := s.workers[w := worker])
  }

  predicate Selectable(config: OutboxConfig, s: State, selected: seq<nat>) {
    && |selected| <= config.batchSize
    && (forall i, j :: 0 <= i < j < |selected| ==> selected[i] != selected[j])
    && forall i :: 0 <= i < |selected| ==>
         selected[i] < |s.rows| && Eligible(s.rows[selected[i]], config.maximumAttempts, s.clock)
  }

  /** The snapshot a claiming query returns. */
  function Snapshot(rows: seq<Row>, selected: seq<nat>): (candidates: seq<Candidate>)
    requires forall i :: 0 <= i < |selected| ==> selected[i] < |rows|
    ensures |candidates| == |selected|
    ensures forall i :: 0 <= i < |selected| ==> candidates[i] == Candidate(selected[i], rows[selected[i]].attempts)
  {
    seq(|selected|, i requires 0 <= i < |selected| => Candidate(selected[i], rows[selected[i]].attempts))
  }

  function ClaimStep(config: OutboxConfig, s: State, w: nat): State
    requires w < |s.workers| && s.workers[w].Claiming?
  {
    var worker := s.workers[w];
    if worker.candidates == [] then Become(s, w, Dispatching(worker.claimed))
    else
      var c := worker.candidates[0];
      var rest := worker.(candidates := worker.candidates[1..]);
      var lease := Lease(s.nextLease, worker.now + config.leaseMs);
      if c.row >= |s.rows| || c.row >= |s.traces| then Become(s, w, rest)
      else
        var claimed := ClaimRow(s.rows[c.row], c.attempts, worker.now, lease);
        if claimed.None? then Become(s, w, rest)
        else
          State(s.clock,
                s.rows[c.row := claimed.value],
                s.traces[c.row := s.traces[c.row].(starts := s.traces[c.row].starts + [s.clock])],
                s.workers[w := rest.(claimed := worker.claimed + [Record(w, c.row, c.attempts + 1, lease)])],
                s.nextLease + 1)
  }

  function Publish(trace: Trace, attempt: nat, published: bool): Trace {
    trace.(publishes := trace.publishes + [attempt],
           accepted := if published then trace.accepted + {attempt} else trace.accepted)
  }

  /** toSecurityEvent, then the publisher. */
  function DispatchStep(s: State, w: nat, published: bool): State
    requires w < |s.workers| && s.workers[w].Dispatching?
  {
    var records := s.workers[w].records;
    if records == [] then Become(s, w, Idle)
    else
      var record := records[0];
      if record.row >= |s.rows| || record.row >= |s.traces| then s
      else if !s.rows[record.row].wellFormed || record.lease.expiresAt <= s.clock then Become(s, w, Failing(records))
      else
        s.(traces := s.traces[record.row := Publish(s.traces[record.row], record.attempt, published)],
           workers := s.workers[w := if published then Marking(records) else Failing(records)])
  }

  /** markDelivered, or markFailed after anything threw. A lost lease throws too: out of the delivery into the
      handler, and out of the handler from the whole flush. */
  function MarkStep(config: OutboxConfig, s: State, w: nat): State
    requires w < |s.workers| && (s.workers[w].Marking? || s.workers[w].Failing?)
  {
    var records := s.workers[w].records;
    if records == [] || records[0].row >= |s.rows| then s
    else
      var record := records[0];
      var row := s.rows[record.row];
      var marked := if s.workers[w].Marking? then DeliverRow(row, record) else FailRow(config, row, record, s.clock);
      if marked.Some? then
        s.(rows := s.rows[record.row := marked.value], workers := s.workers[w := Dispatching(records[1..])])
      else if s.workers[w].Marking? then Become(s, w, Failing(records))
      else Become(s, w, Idle)
  }

  /** A step that is not enabled changes nothing. The database may answer markDelivered with an error instead, which
      sends the worker into the handler with its lease still on the row; an error anywhere else ends the flush. */
  function Perform(config: OutboxConfig, s: State, step: Step): State {
    match step
    case Insert(wellFormed) =>
      s.(rows := s.rows + [Row(AlertPending, 0, None, None, wellFormed)], traces := s.traces + [Trace([], [], {})])
    case Tick(elapsed) => s.(clock := s.clock + elapsed)
    case Begin(w, selected) =>
      if w < |s.workers| && s.workers[w].Idle? && Selectable(config, s, selected)
      then Become(s, w, Claiming(s.clock, Snapshot(s.rows, selected), [])) else s
    case ClaimNext(w) => if w < |s.workers| && s.workers[w].Claiming? then ClaimStep(config, s, w) else s
    case Dispatch(w, published) => if w < |s.workers| && s.workers[w].Dispatching? then DispatchStep(s, w, published) else s
    case Mark(w) =>
      if w < |s.workers| && (s.workers[w].Marking? || s.workers[w].Failing?) then MarkStep(config, s, w) else s
    case MarkError(w) =>
      if w < |s.workers| && s.workers[w].Marking? then Become(s, w, Failing(s.workers[w].records)) else s
    case Crash(w) => if w < |s.workers| then Become(s, w, Idle) else s
  }

  function Execute(config: OutboxConfig, s: State, steps: seq<Step>): State {
    if steps == [] then s else Perform(config, Execute(config, s, steps[..|steps| - 1]), steps[|steps| - 1])
  }

  lemma ExecuteSnoc(config: OutboxConfig, s: State, steps: seq<Step>, step: Step)
    ensures Execute(config, s, steps + [step]) == Perform(config, Execute(config, s, steps), step)
  {
    assert (steps + [step])[..|steps|] == steps;
  }

  /** Any number of workers on an empty outbox. */
  function Start(workers: nat): State {
    State(0, [], [], seq(workers, _ => Idle), 0)
  }

  // ---------------------------------------------------------------- the invariant

  function Held(worker: Worker): seq<Record> {
    match worker
    case Idle => []
    case Claiming(_, _, claimed) => claimed
    case Dispatching(records) => records
    case Marking(records) => records
    case Failing(records) => records
  }

  /** The claimed records the worker has not yet tried to publish. */
  function Waiting(worker: Worker): seq<Record> {
    if (worker.Marking? || worker.Failing?) && worker.records != [] then worker.records[1..] else Held(worker)
  }

  ghost predicate IncreasingUpTo(publishes: seq<nat>, attempts: nat) {
    && (forall i :: 0 <= i < |publishes| ==> 1 <= publishes[i] <= attempts)
    && forall i, j :: 0 <= i < j < |publishes| ==> publishes[i] < publishes[j]
  }

  ghost predicate RowOk(config: OutboxConfig, row: Row, trace: Trace) {
    && row.attempts <= config.maximumAttempts
    && (row.status == AlertPending && row.lease.None? ==> row.attempts < config.maximumAttempts)
    && (row.status != AlertPending ==> row.lease.None?)
    && (row.status == AlertDelivered ==> row.attempts in trace.accepted)
    && |trace.starts| == row.attempts
    && IncreasingUpTo(trace.publishes, row.attempts)
  }

  ghost predicate RowsOk(config: OutboxConfig, rows: seq<Row>, traces: seq<Trace>) {
    |traces| == |rows| && forall r :: 0 <= r < |rows| ==> RowOk(config, rows[r], traces[r])
  }

  /** The row is still exactly as the record's claim left it. */
  ghost predicate Current(row: Row, record: Record) {
    row.status == AlertPending && row.attempts == record.attempt && row.lease == Some(record.lease)
  }

  /** While its lease has not expired, nobody but its holder has touched the row. */
  ghost predicate HeldOk(clock: int, rows: seq<Row>, record: Record) {
    && record.row < |rows|
    && 1 <= record.attempt <= rows[record.row].attempts
    && (record.lease.expiresAt > clock ==> Current(rows[record.row], record))
  }

  ghost predicate AllHeld(s: State) {
    forall i, record :: 0 <= i < |s.workers| && record in Held(s.workers[i]) ==>
      record.worker == i && HeldOk(s.clock, s.rows, record)
  }

  ghost predicate Unpublished(traces: seq<Trace>, record: Record) {
    record.row < |traces| && record.attempt !in traces[record.row].publishes
  }

  ghost predicate AllWaiting(s: State) {
    forall i, record :: 0 <= i < |s.workers| && record in Waiting(s.workers[i]) ==> Unpublished(s.traces, record)
  }

  predicate SameClaim(a: Record, b: Record) {
    a.row == b.row && a.attempt == b.attempt
  }

  /** No claim is held twice. */
  ghost predicate Exclusive(workers: seq<Worker>) {
    && (forall i, j, a, b ::
          (0 <= i < |workers| && 0 <= j < |workers| && a in Held(workers[i]) && b in Held(workers[j]) && SameClaim(a, b)
           ==> a == b))
    && forall i :: 0 <= i < |workers| ==> NoRepeat(Held(workers[i]))
  }

  ghost predicate NoRepeat(records: seq<Record>) {
    forall i, j :: 0 <= i < j < |records| ==> records[i] != records[j]
  }

  /** A worker claims with a time that has passed, for attempts the rows had. */
  ghost predicate Claims(config: OutboxConfig, s: State) {
    forall i :: 0 <= i < |s.workers| && s.workers[i].Claiming? ==>
      s.workers[i].now <= s.clock
      && forall c :: c in s.workers[i].candidates ==> c.row < |s.rows| && c.attempts < config.maximumAttempts
  }

  ghost predicate HasAccepted(traces: seq<Trace>, record: Record) {
    record.row < |traces| && record.attempt in traces[record.row].accepted
  }

  /** A worker about to mark a delivery has seen the publisher accept it. */
  ghost predicate AllMarking(s: State) {
    forall i :: 0 <= i < |s.workers| && s.workers[i].Marking? ==>
      s.workers[i].records != [] && HasAccepted(s.traces, s.workers[i].records[0])
  }

  ghost predicate Inv(config: OutboxConfig, s: State) {
    && RowsOk(config, s.rows, s.traces)
    && AllHeld(s)
    && AllWaiting(s)
    && AllMarking(s)
    && Exclusive(s.workers)
    && Claims(config, s)
  }

  /** A worker that keeps to records it already holds disturbs nothing. */
  lemma Narrow(config: OutboxConfig, s: State, w: nat, worker: Worker)
    requires Inv(config, s) && w < |s.workers|
    requires forall record :: record in Held(worker) ==> record in Held(s.workers[w])
    requires forall record :: record in Waiting(worker) ==> record in Waiting(s.workers[w])
    requires NoRepeat(Held(worker))
    requires worker.Marking? ==> worker.records != [] && HasAccepted(s.traces, worker.records[0])
    requires worker.Claiming? ==>
      worker.now <= s.clock && forall c :: c in worker.candidates ==> c.row < |s.rows| && c.attempts < config.maximumAttempts
    ensures Inv(config, Become(s, w, worker))
  {
    var s' := Become(s, w, worker);
    forall i, record | 0 <= i < |s'.workers| && record in Held(s'.workers[i])
      ensures record in Held(s.workers[i])
    {}
  }

  lemma NoRepeatTail(records: seq<Record>)
    requires records != [] && NoRepeat(records)
    ensures NoRepeat(records[1..]) && records[0] !in records[1..]
    ensures forall record :: record in records[1..] ==> record in records
  {}

  /** The row and attempt of a record belong to it alone. */
  lemma OthersDiffer(config: OutboxConfig, s: State, w: nat, record: Record, i: nat, other: Record)
    requires Inv(config, s) && w < |s.workers| && i < |s.workers|
    requires record in Held(s.workers[w]) && other in Held(s.workers[i]) && other != record
    ensures !SameClaim(record, other)
  {}

  lemma HeldFacts(config: OutboxConfig, s: State, w: nat, record: Record)
    requires Inv(config, s) && w < |s.workers| && record in Held(s.workers[w])
    ensures record.worker == w && HeldOk(s.clock, s.rows, record)
  {}

  // ---------------------------------------------------------------- claims

  /** No claim succeeds while an unexpired lease stands on the row, however old the claiming query is. */
  lemma ClaimNeedsFreeLease(config: OutboxConfig, s: State, w: nat, r: nat)
    requires Inv(config, s) && w < |s.workers| && s.workers[w].Claiming? && r < |s.rows|
    ensures var s' := Perform(config, s, ClaimNext(w));
      s'.rows[r] == s.rows[r]
      || (s.rows[r].status == AlertPending && LeaseFree(s.rows[r].lease, s.clock)
          && s'.rows[r].attempts == s.rows[r].attempts + 1 <= config.maximumAttempts
          && s'.rows[r].lease.Some?)
  {
    assert s.workers[w].now <= s.clock;
    if s.workers[w].candidates != [] {
      assert s.workers[w].candidates[0] in s.workers[w].candidates;
    }
  }

  lemma SkipCandidate(config: OutboxConfig, s: State, w: nat)
    requires Inv(config, s) && w < |s.workers| && s.workers[w].Claiming? && s.workers[w].candidates != []
    ensures Inv(config, Become(s, w, s.workers[w].(candidates := s.workers[w].candidates[1..])))
  {
    var candidates := s.workers[w].candidates;
    assert forall c :: c in candidates[1..] ==> c in candidates;
    Narrow(config, s, w, s.workers[w].(candidates := candidates[1..]));
  }

  /** A successful claim, seen apart from the candidates: the worker has one record more. */
  ghost predicate Claimed(config: OutboxConfig, s: State, s': State, w: nat, record: Record) {
    && w < |s.workers| && s.workers[w].Claiming? && record.worker == w
    && record.row < |s.rows| == |s.traces| && record.attempt == s.rows[record.row].attempts + 1
    && s.rows[record.row].status == AlertPending && LeaseFree(s.rows[record.row].lease, s.clock)
    && record.attempt <= config.maximumAttempts
    && s'.clock == s.clock
    && s'.rows == s.rows[record.row := s.rows[record.row].(attempts := record.attempt, lease := Some(record.lease), nextAttemptAt := None)]
    && s'.traces == s.traces[record.row := s.traces[record.row].(starts := s.traces[record.row].starts + [s.clock])]
    && s'.workers == s.workers[w := s.workers[w].(claimed := s.workers[w].claimed + [record])]
  }

  lemma ClaimedRows(config: OutboxConfig, s: State, s': State, w: nat, record: Record)
    requires Inv(config, s) && Claimed(config, s, s', w, record)
    ensures RowsOk(config, s'.rows, s'.traces)
  {
    assert RowOk(config, s.rows[record.row], s.traces[record.row]);
  }

  lemma ClaimedOthers(config: OutboxConfig, s: State, s': State, w: nat, record: Record, i: nat, other: Record)
    requires Inv(config, s) && Claimed(config, s, s', w, record)
    requires i < |s.workers| && other in Held(s.workers[i])
    ensures HeldOk(s'.clock, s'.rows, other) && !SameClaim(record, other)
  {
    HeldFacts(config, s, i, other);
  }

  lemma ExclusiveAdd(workers: seq<Worker>, w: nat, worker: Worker, record: Record)
    requires Exclusive(workers) && w < |workers| && Held(worker) == Held(workers[w]) + [record]
    requires forall i, other :: 0 <= i < |workers| && other in Held(workers[i]) ==> !SameClaim(record, other)
    ensures Exclusive(workers[w := worker])
  {
    var workers' := workers[w := worker];
    forall i, other | 0 <= i < |workers'| && other in Held(workers'[i]) ensures other == record || other in Held(workers[i]) {}
    forall i, other | 0 <= i < |workers| && other in Held(workers[i]) ensures !SameClaim(other, record) && other != record {
      assert !SameClaim(record, other);
    }
    forall i | 0 <= i < |workers'| ensures NoRepeat(Held(workers'[i])) {
      if i == w {
        var held := Held(workers[w]);
        forall k | 0 <= k < |held| ensures held[k] != record {
          assert held[k] in Held(workers[w]);
          assert !SameClaim(record, held[k]);
        }
        NoRepeatSnoc(held, record);
      }
    }
  }

  lemma NoRepeatSnoc(records: seq<Record>, record: Record)
    requires NoRepeat(records) && record !in records
    ensures NoRepeat(records + [record])
  {}

  lemma ClaimedHeld(config: OutboxConfig, s: State, s': State, w: nat, record: Record)
    requires Inv(config, s) && Claimed(config, s, s', w, record)
    ensures AllHeld(s')
  {
    forall i, other | 0 <= i < |s'.workers| && other in Held(s'.workers[i])
      ensures other.worker == i && HeldOk(s'.clock, s'.rows, other)
    {
      if other in Held(s.workers[i]) {
        HeldFacts(config, s, i, other);
        ClaimedOthers(config, s, s', w, record, i, other);
      }
    }
  }

  lemma ClaimedWaiting(config: OutboxConfig, s: State, s': State, w: nat, record: Record)
    requires Inv(config, s) && Claimed(config, s, s', w, record)
    ensures AllWaiting(s')
  {
    forall i, other | 0 <= i < |s'.workers| && other in Waiting(s'.workers[i]) ensures Unpublished(s'.traces, other) {
      if other in Waiting(s.workers[i]) {
        assert Unpublished(s.traces, other);
      } else {
        assert RowOk(config, s.rows[record.row], s.traces[record.row]);
      }
    }
  }

  lemma ClaimKeeps(config: OutboxConfig, s: State, s': State, w: nat, record: Record)
    requires Inv(config, s) && Claimed(config, s, s', w, record)
    ensures Inv(config, s')
  {
    ClaimedRows(config, s, s', w, record);
    ClaimedHeld(config, s, s', w, record);
    ClaimedWaiting(config, s, s', w, record);
    forall i, other | 0 <= i < |s.workers| && other in Held(s.workers[i]) ensures !SameClaim(record, other) {
      ClaimedOthers(config, s, s', w, record, i, other);
    }
    ExclusiveAdd(s.workers, w, s'.workers[w], record);
  }

  lemma ClaimStepKeeps(config: OutboxConfig, s: State, w: nat)
    requires Inv(config, s) && w < |s.workers| && s.workers[w].Claiming?
    ensures Inv(config, ClaimStep(config, s, w))
  {
    var worker := s.workers[w];
    if worker.candidates == [] {
      Narrow(config, s, w, Dispatching(worker.claimed));
    } else {
      SkipCandidate(config, s, w);
      var c := worker.candidates[0];
      assert c in worker.candidates;
      var t := Become(s, w, worker.(candidates := worker.candidates[1..]));
      var lease := Lease(s.nextLease, worker.now + config.leaseMs);
      if ClaimRow(s.rows[c.row], c.attempts, worker.now, lease).Some? {
        var s' := ClaimStep(config, s, w);
        assert t.workers[w := s'.workers[w]] == s.workers[w := s'.workers[w]];
        ClaimKeeps(config, t, s', w, Record(w, c.row, c.attempts + 1, lease));
      }
    }
  }

  // ---------------------------------------------------------------- publishing

  /** The publisher is only ever called under a lease of one's own that still stands. */
  lemma PublishUnderLease(config: OutboxConfig, s: State, w: nat, published: bool)
    requires Inv(config, s) && w < |s.workers| && s.workers[w].Dispatching? && s.workers[w].records != []
    ensures var record := s.workers[w].records[0];
      Perform(config, s, Dispatch(w, published)).traces != s.traces ==>
        record.row < |s.rows| && Current(s.rows[record.row], record) && record.lease.expiresAt > s.clock
  {
    assert s.workers[w].records[0] in Held(s.workers[w]);
  }

  lemma DispatchKeeps(config: OutboxConfig, s: State, w: nat, published: bool)
    requires Inv(config, s) && w < |s.workers| && s.workers[w].Dispatching?
    ensures Inv(config, DispatchStep(s, w, published))
  {
    var records := s.workers[w].records;
    if records == [] {
      Narrow(config, s, w, Idle);
    } else {
      var record := records[0];
      assert record in Held(s.workers[w]);
      HeldFacts(config, s, w, record);
      NoRepeatTail(records);
      Narrow(config, s, w, Failing(records));
      if s.rows[record.row].wellFormed && record.lease.expiresAt > s.clock {
        PublishKeeps(config, s, w, record, published);
      }
    }
  }

  lemma PublishKeeps(config: OutboxConfig, s: State, w: nat, record: Record, published: bool)
    requires Inv(config, s) && w < |s.workers| && s.workers[w].Dispatching?
    requires s.workers[w].records != [] && record == s.workers[w].records[0]
    requires Inv(config, Become(s, w, Failing(s.workers[w].records)))
    requires record.row < |s.rows| && s.rows[record.row].wellFormed && record.lease.expiresAt > s.clock
    requires Current(s.rows[record.row], record)
    ensures Inv(config, DispatchStep(s, w, published))
  {
    var t := Become(s, w, Failing(s.workers[w].records));
    var traces := t.traces[record.row := Publish(t.traces[record.row], record.attempt, published)];
    assert record in Waiting(s.workers[w]);
    assert Unpublished(s.traces, record);
    NoRepeatTail(s.workers[w].records);
    TraceKeeps(config, t, traces, w, record, published);
    var u, s' := t.(traces := traces), DispatchStep(s, w, published);
    assert s' == Become(u, w, s'.workers[w]);
    Narrow(config, u, w, s'.workers[w]);
  }

  lemma TraceKeeps(config: OutboxConfig, t: State, traces: seq<Trace>, w: nat, record: Record, published: bool)
    requires Inv(config, t) && w < |t.workers| && record in Held(t.workers[w]) && record !in Waiting(t.workers[w])
    requires record.row < |t.rows| && Current(t.rows[record.row], record) && Unpublished(t.traces, record)
    requires traces == t.traces[record.row := Publish(t.traces[record.row], record.attempt, published)]
    ensures Inv(config, t.(traces := traces))
  {
    HeldFacts(config, t, w, record);
    assert RowOk(config, t.rows[record.row], t.traces[record.row]);
    IncreasingSnoc(t.traces[record.row].publishes, record.attempt);
    assert RowOk(config, t.rows[record.row], traces[record.row]);
    forall i, other | 0 <= i < |t.workers| && other in Waiting(t.workers[i]) ensures Unpublished(traces, other) {
      StillUnpublished(config, t, traces, w, record, i, other, published);
    }
    forall i | 0 <= i < |t.workers| && t.workers[i].Marking? ensures HasAccepted(traces, t.workers[i].records[0]) {
      assert HasAccepted(t.traces, t.workers[i].records[0]);
    }
  }

  lemma IncreasingSnoc(publishes: seq<nat>, attempts: nat)
    requires IncreasingUpTo(publishes, attempts) && attempts !in publishes && attempts >= 1
    ensures IncreasingUpTo(publishes + [attempts], attempts)
  {
    forall i | 0 <= i < |publishes| ensures publishes[i] < attempts {
      assert publishes[i] in publishes;
    }
  }

  lemma StillUnpublished(config: OutboxConfig, t: State, traces: seq<Trace>, w: nat, record: Record, i: nat, other: Record,
                         published: bool)
    requires Inv(config, t) && w < |t.workers| && i < |t.workers| && record.row < |t.traces|
    requires record in Held(t.workers[w]) && record !in Waiting(t.workers[w]) && other in Waiting(t.workers[i])
    requires traces == t.traces[record.row := Publish(t.traces[record.row], record.attempt, published)]
    ensures Unpublished(traces, other)
  {
    assert Unpublished(t.traces, other);
    WaitingHeld(t.workers[i], other);
    HeldFacts(config, t, i, other);
    HeldFacts(config, t, w, record);
    if other != record {
      OthersDiffer(config, t, w, record, i, other);
    }
  }

  lemma WaitingHeld(worker: Worker, record: Record)
    requires record in Waiting(worker)
    ensures record in Held(worker)
  {}

  // ---------------------------------------------------------------- marking

  lemma MarkKeeps(config: OutboxConfig, s: State, w: nat)
    requires Inv(config, s) && w < |s.workers| && (s.workers[w].Marking? || s.workers[w].Failing?)
    ensures Inv(config, MarkStep(config, s, w))
  {
    var records := s.workers[w].records;
    if records != [] {
      var record := records[0];
      assert record in Held(s.workers[w]);
      HeldFacts(config, s, w, record);
      NoRepeatTail(records);
      var s' := MarkStep(config, s, w);
      if s'.rows == s.rows && s'.workers[w] != Dispatching(records[1..]) {
        Narrow(config, s, w, s'.workers[w]);
      } else {
        Narrow(config, s, w, Dispatching(records[1..]));
        ReleaseKeeps(config, s, Become(s, w, Dispatching(records[1..])), s', w, record);
      }
    }
  }

  /** The row of a record nobody holds any more may be released. */
  lemma ReleaseKeeps(config: OutboxConfig, s: State, t: State, s': State, w: nat, record: Record)
    requires Inv(config, s) && Inv(config, t) && w < |s.workers| && record in Held(s.workers[w])
    requires |t.workers| == |s.workers| && record !in Held(t.workers[w]) && t == Become(s, w, t.workers[w])
    requires forall other :: other in Held(t.workers[w]) ==> other in Held(s.workers[w])
    requires record.row < |s.rows| && Owns(s.rows[record.row], record)
    requires s' == t.(rows := s'.rows) && |s'.rows| == |s.rows|
    requires s'.rows == s.rows[record.row := s'.rows[record.row]]
    requires s'.rows[record.row].attempts == record.attempt && s'.rows[record.row].lease == None
    requires s'.rows[record.row].status == AlertPending ==> record.attempt < config.maximumAttempts
    requires s'.rows[record.row].status == AlertDelivered ==> HasAccepted(s.traces, record)
    ensures Inv(config, s')
  {
    assert RowOk(config, s.rows[record.row], s.traces[record.row]);
    forall i, other | 0 <= i < |s'.workers| && other in Held(s'.workers[i]) ensures HeldOk(s'.clock, s'.rows, other) {
      assert other in Held(s.workers[i]);
      HeldFacts(config, s, i, other);
      HeldFacts(config, s, w, record);
      OthersDiffer(config, s, w, record, i, other);
    }
  }

  // ---------------------------------------------------------------- every step

  lemma BeginKeeps(config: OutboxConfig, s: State, w: nat, selected: seq<nat>)
    requires Inv(config, s) && w < |s.workers| && s.workers[w].Idle? && Selectable(config, s, selected)
    ensures Inv(config, Become(s, w, Claiming(s.clock, Snapshot(s.rows, selected), [])))
  {
    Narrow(config, s, w, Claiming(s.clock, Snapshot(s.rows, selected), []));
  }

  lemma InsertKeeps(config: OutboxConfig, s: State, wellFormed: bool)
    requires config.Valid() && Inv(config, s)
    ensures Inv(config, Perform(config, s, Insert(wellFormed)))
  {
    var s' := Perform(config, s, Insert(wellFormed));
    forall i, record | 0 <= i < |s'.workers| && record in Held(s'.workers[i]) ensures HeldOk(s'.clock, s'.rows, record) {
      HeldFacts(config, s, i, record);
    }
    forall i, record | 0 <= i < |s'.workers| && record in Waiting(s'.workers[i]) ensures Unpublished(s'.traces, record) {
      assert Unpublished(s.traces, record);
    }
  }

  lemma StepKeeps(config: OutboxConfig, s: State, step: Step)
    requires config.Valid() && Inv(config, s)
    ensures Inv(config, Perform(config, s, step))
  {
    match step
    case Insert(wellFormed) => InsertKeeps(config, s, wellFormed);
    case Tick(elapsed) =>
    case Begin(w, selected) =>
      if w < |s.workers| && s.workers[w].Idle? && Selectable(config, s, selected) { BeginKeeps(config, s, w, selected); }
    case ClaimNext(w) => if w < |s.workers| && s.workers[w].Claiming? { ClaimStepKeeps(config, s, w); }
    case Dispatch(w, published) =>
      if w < |s.workers| && s.workers[w].Dispatching? { DispatchKeeps(config, s, w, published); }
    case Mark(w) => if w < |s.workers| && (s.workers[w].Marking? || s.workers[w].Failing?) { MarkKeeps(config, s, w); }
    case MarkError(w) =>
      if w < |s.workers| && s.workers[w].Marking? { Narrow(config, s, w, Failing(s.workers[w].records)); }
    case Crash(w) => if w < |s.workers| { Narrow(config, s, w, Idle); }
  }

  lemma {:induction false} Reachable(config: OutboxConfig, workers: nat, steps: seq<Step>)
    requires config.Valid()
    ensures Inv(config, Execute(config, Start(workers), steps))
  {
    if steps != [] {
      Reachable(config, workers, steps[..|steps| - 1]);
      StepKeeps(config, Execute(config, Start(workers), steps[..|steps| - 1]), steps[|steps| - 1]);
    }
  }
}

/**
 The backoff of the outbox. It is kept for every attempt of every row while each claim finds the row due and free of
 any earlier lease. A single worker that does not stop never claims otherwise. A second worker can, because the claim
 does not look at the next attempt time again, and so can a worker that stopped, because an expired lease is enough:
 whatever the configuration, the backoff holds with one attempt, or with one worker that never stops, and not otherwise.
 */
module OutboxBackoff {
  import opened Wrappers
  import opened Leases
  import opened Outbox
  import opened OutboxRuns

  /** base * (2^k - 1): the delays after the first k failures, added up. */
  function TotalBackoff(config: OutboxConfig, k: nat): int {
    config.retryBaseMs * (Pow2(k) - 1)
  }

  lemma TotalBackoffStep(config: OutboxConfig, k: nat)
    requires k >= 1
    ensures TotalBackoff(config, k) == TotalBackoff(config, k - 1) + Backoff(config, k)
  {
    Distribute(config.retryBaseMs, Pow2(k - 1) - 1, Pow2(k - 1));
  }

  lemma Distribute(a: int, b: int, c: int)
    ensures a * (b + c) == a * b + a * c
  {}

  /** Attempt k + 1 has not started before the first attempt and the first k delays. */
  ghost predicate KeepsBackoff(config: OutboxConfig, starts: seq<int>) {
    forall k :: 0 <= k < |starts| ==> starts[k] >= starts[0] + TotalBackoff(config, k)
  }

  ghost predicate Paced(config: OutboxConfig, row: Row, trace: Trace, clock: int) {
    && KeepsBackoff(config, trace.starts)
    && (forall k :: 0 <= k < |trace.starts| ==> trace.starts[k] <= clock)
    && |trace.starts| == row.attempts
    && (row.status == AlertPending && row.lease.None? && row.attempts >= 1 ==>
          row.nextAttemptAt.Some? && row.nextAttemptAt.value >= trace.starts[0] + TotalBackoff(config, row.attempts))
  }

  /** The time of the next attempt has come and no earlier claim is still on the row. */
  predicate DueAndFree(row: Row, now: int) {
    row.lease.None? && (row.nextAttemptAt.None? || row.nextAttemptAt.value <= now)
  }

  /** A claim of such a row comes after its backoff. */
  lemma PacedClaim(config: OutboxConfig, row: Row, trace: Trace, clock: int, now: int, attempts: nat, lease: Lease)
    requires Paced(config, row, trace, clock) && DueAndFree(row, clock)
    requires ClaimRow(row, attempts, now, lease).Some?
    ensures Paced(config, ClaimRow(row, attempts, now, lease).value, trace.(starts := trace.starts + [clock]), clock)
  {}

  /** A failure schedules the next attempt behind one more delay. */
  lemma PacedFailure(config: OutboxConfig, row: Row, trace: Trace, clock: int, record: Record)
    requires Paced(config, row, trace, clock) && Owns(row, record) && record.attempt >= 1
    ensures FailRow(config, row, record, clock).Some?
    ensures Paced(config, FailRow(config, row, record, clock).value, trace, clock)
  {
    TotalBackoffStep(config, record.attempt);
  }

  // ---------------------------------------------------------------- any number of workers

  /** The step starts an attempt of the row. */
  ghost predicate StartsAttempt(config: OutboxConfig, s: State, step: Step, r: nat) {
    var s' := Perform(config, s, step);
    r < |s.rows| && r < |s.traces| && r < |s'.traces| && s'.traces[r].starts != s.traces[r].starts
  }

  /** The claim finds the row not yet due again, or with the lease of an earlier claim still on it. */
  ghost predicate Hasty(config: OutboxConfig, s: State, step: Step, r: nat) {
    StartsAttempt(config, s, step, r) && !DueAndFree(s.rows[r], s.clock)
  }

  /** What a step that starts no attempt leaves of the pace. */
  lemma PacedMark(config: OutboxConfig, s: State, w: nat, r: nat)
    requires config.Valid() && Inv(config, s) && r < |s.rows| && Paced(config, s.rows[r], s.traces[r], s.clock)
    requires w < |s.workers| && (s.workers[w].Marking? || s.workers[w].Failing?)
    ensures var s' := MarkStep(config, s, w);
      |s'.rows| == |s.rows| == |s'.traces| && Paced(config, s'.rows[r], s'.traces[r], s'.clock)
  {
    var records := s.workers[w].records;
    if records != [] && records[0].row == r && Owns(s.rows[r], records[0]) {
      assert records[0] in Held(s.workers[w]);
      HeldFacts(config, s, w, records[0]);
      PacedFailure(config, s.rows[r], s.traces[r], s.clock, records[0]);
    }
  }

  lemma PacedClaimStep(config: OutboxConfig, s: State, w: nat, r: nat)
    requires r < |s.rows| == |s.traces| && Paced(config, s.rows[r], s.traces[r], s.clock)
    requires w < |s.workers| && s.workers[w].Claiming? && !Hasty(config, s, ClaimNext(w), r)
    ensures var s' := ClaimStep(config, s, w);
      |s'.rows| == |s.rows| == |s'.traces| && Paced(config, s'.rows[r], s'.traces[r], s'.clock)
  {
    var worker, s' := s.workers[w], ClaimStep(config, s, w);
    if s'.traces[r].starts != s.traces[r].starts {
      var c := worker.candidates[0];
      PacedClaim(config, s.rows[r], s.traces[r], s.clock, worker.now, c.attempts, Lease(s.nextLease, worker.now + config.leaseMs));
    }
  }

  lemma PacedStep(config: OutboxConfig, s: State, step: Step, r: nat)
    requires config.Valid() && Inv(config, s) && r < |s.rows| && Paced(config, s.rows[r], s.traces[r], s.clock)
    requires !Hasty(config, s, step, r)
    ensures var s' := Perform(config, s, step);
      r < |s'.rows| == |s'.traces| && Paced(config, s'.rows[r], s'.traces[r], s'.clock)
  {
    match step
    case ClaimNext(w) => if w < |s.workers| && s.workers[w].Claiming? { PacedClaimStep(config, s, w, r); }
    case Mark(w) => if w < |s.workers| && (s.workers[w].Marking? || s.workers[w].Failing?) { PacedMark(config, s, w, r); }
    case Dispatch(w, published) =>
    case _ =>
  }

  ghost predicate NoneHasty(config: OutboxConfig, s: State, steps: seq<Step>, r: nat) {
    forall k {:trigger steps[k]} :: 0 <= k < |steps| ==> !Hasty(config, Execute(config, s, steps[..k]), steps[k], r)
  }

  lemma NoneHastyPrefix(config: OutboxConfig, s: State, steps: seq<Step>, r: nat)
    requires steps != [] && NoneHasty(config, s, steps, r)
    ensures NoneHasty(config, s, steps[..|steps| - 1], r)
    ensures !Hasty(config, Execute(config, s, steps[..|steps| - 1]), steps[|steps| - 1], r)
  {
    var init := steps[..|steps| - 1];
    forall k | 0 <= k < |init| ensures !Hasty(config, Execute(config, s, init[..k]), init[k], r) {
      assert init[..k] == steps[..k] && init[k] == steps[k];
    }
  }

  /** However many workers there are and wherever they stop: while no claim of the row is hasty its backoff is kept. */
  lemma {:induction false} DueClaimsKeepBackoff(config: OutboxConfig, workers: nat, steps: seq<Step>, r: nat)
    requires config.Valid() && NoneHasty(config, Start(workers), steps, r)
    requires r < |Execute(config, Start(workers), steps).rows|
    ensures var s := Execute(config, Start(workers), steps);
      |s.traces| == |s.rows| && Paced(config, s.rows[r], s.traces[r], s.clock) && KeepsBackoff(config, s.traces[r].starts)
  {
    if steps != [] {
      var init, last := steps[..|steps| - 1], steps[|steps| - 1];
      var s := Execute(config, Start(workers), init);
      NoneHastyPrefix(config, Start(workers), steps, r);
      Reachable(config, workers, init);
      if r < |s.rows| {
        DueClaimsKeepBackoff(config, workers, init, r);
        PacedStep(config, s, last, r);
      } else {
        RowsOnlyInserted(config, s, last);
      }
    }
  }

  /** A run that breaks the backoff of a row therefore holds a hasty claim of it. */
  lemma BrokenByHastyClaim(config: OutboxConfig, workers: nat, steps: seq<Step>, r: nat) returns (k: nat)
    requires config.Valid() && r < |Execute(config, Start(workers), steps).rows| == |Execute(config, Start(workers), steps).traces|
    requires !KeepsBackoff(config, Execute(config, Start(workers), steps).traces[r].starts)
    ensures k < |steps| && Hasty(config, Execute(config, Start(workers), steps[..k]), steps[k], r)
  {
    if NoneHasty(config, Start(workers), steps, r) {
      DueClaimsKeepBackoff(config, workers, steps, r);
    }
    k :| 0 <= k < |steps| && Hasty(config, Execute(config, Start(workers), steps[..k]), steps[k], r);
  }

  lemma RowsOnlyInserted(config: OutboxConfig, s: State, step: Step)
    requires |s.traces| == |s.rows|
    ensures var s' := Perform(config, s, step);
      && |s'.traces| == |s'.rows|
      && (step.Insert? ==> s'.rows == s.rows + [Row(AlertPending, 0, None, None, step.wellFormed)]
                           && s'.traces == s.traces + [Trace([], [], {})])
      && (!step.Insert? ==> |s'.rows| == |s.rows|)
  {}

  // ---------------------------------------------------------------- one worker that never stops

  /** A candidate whose row has not been claimed since the query is still due and free. */
  ghost predicate StillDue(row: Row, c: Candidate, now: int) {
    && c.attempts <= row.attempts
    && (c.attempts == row.attempts ==>
          row.lease.None? && (row.nextAttemptAt.None? || row.nextAttemptAt.value <= now))
  }

  ghost predicate HoldsRow(worker: Worker, r: nat) {
    exists record :: record in Held(worker) && record.row == r
  }

  ghost predicate Solo(s: State) {
    && |s.workers| == 1
    && |s.traces| == |s.rows|
    && (forall record :: record in Held(s.workers[0]) ==>
          record.row < |s.rows| && Current(s.rows[record.row], record))
    && (forall r :: 0 <= r < |s.rows| && s.rows[r].lease.Some? ==> HoldsRow(s.workers[0], r))
    && (s.workers[0].Claiming? ==>
          forall c :: c in s.workers[0].candidates ==>
            c.row < |s.rows| && StillDue(s.rows[c.row], c, s.workers[0].now))
  }

  ghost predicate SoloInv(config: OutboxConfig, s: State) {
    Inv(config, s) && Solo(s)
  }

  lemma IdleHoldsNothing(r: nat)
    ensures !HoldsRow(Idle, r)
  {}

  lemma HoldsMore(before: Worker, after: Worker, record: Record, r: nat)
    requires Held(after) == Held(before) + [record] && HoldsRow(before, r)
    ensures HoldsRow(after, r)
  {
    var other :| other in Held(before) && other.row == r;
    assert other in Held(after);
  }

  lemma HoldsFewer(before: Worker, after: Worker, record: Record, r: nat)
    requires Held(before) == [record] + Held(after) && HoldsRow(before, r) && record.row != r
    ensures HoldsRow(after, r)
  {
    var other :| other in Held(before) && other.row == r;
    assert other in Held(after);
  }

  lemma SoloBegin(config: OutboxConfig, s: State, selected: seq<nat>)
    requires config.Valid() && SoloInv(config, s)
    ensures Solo(Perform(config, s, Begin(0, selected)))
  {
    var s' := Perform(config, s, Begin(0, selected));
    if s' != s {
      forall r | 0 <= r < |s.rows| ensures s.rows[r].lease.None? {
        IdleHoldsNothing(r);
      }
    }
  }

  lemma SoloClaim(config: OutboxConfig, s: State)
    requires config.Valid() && SoloInv(config, s) && s.workers[0].Claiming?
    ensures Solo(ClaimStep(config, s, 0))
  {
    var worker, s' := s.workers[0], ClaimStep(config, s, 0);
    if worker.candidates == [] {
      forall r | 0 <= r < |s.rows| && s.rows[r].lease.Some? ensures HoldsRow(s'.workers[0], r) {
        assert HoldsRow(s.workers[0], r);
      }
    } else {
      var c := worker.candidates[0];
      assert c in worker.candidates;
      assert forall d :: d in worker.candidates[1..] ==> d in worker.candidates;
      var lease := Lease(s.nextLease, worker.now + config.leaseMs);
      if ClaimRow(s.rows[c.row], c.attempts, worker.now, lease).None? {
        forall r | 0 <= r < |s.rows| && s.rows[r].lease.Some? ensures HoldsRow(s'.workers[0], r) {
          assert HoldsRow(s.workers[0], r);
        }
      } else {
        SoloClaimed(config, s, c, lease);
      }
    }
  }

  lemma SoloClaimed(config: OutboxConfig, s: State, c: Candidate, lease: Lease)
    requires config.Valid() && SoloInv(config, s) && s.workers[0].Claiming?
    requires s.workers[0].candidates != [] && c == s.workers[0].candidates[0]
    requires lease == Lease(s.nextLease, s.workers[0].now + config.leaseMs)
    requires ClaimRow(s.rows[c.row], c.attempts, s.workers[0].now, lease).Some?
    ensures Solo(ClaimStep(config, s, 0))
  {
    var worker, s' := s.workers[0], ClaimStep(config, s, 0);
    var record := Record(0, c.row, c.attempts + 1, lease);
    assert c in worker.candidates;
    assert forall d :: d in worker.candidates[1..] ==> d in worker.candidates;
    assert Held(s'.workers[0]) == Held(worker) + [record];
    forall other | other in Held(s'.workers[0])
      ensures other.row < |s'.rows| && Current(s'.rows[other.row], other)
    {
      if other in Held(worker) {
        assert Current(s.rows[other.row], other);
      }
    }
    forall r | 0 <= r < |s'.rows| && s'.rows[r].lease.Some? ensures HoldsRow(s'.workers[0], r) {
      if r == c.row {
        assert record in Held(s'.workers[0]);
      } else {
        assert HoldsRow(worker, r);
        HoldsMore(worker, s'.workers[0], record, r);
      }
    }
  }

  lemma SoloDispatch(config: OutboxConfig, s: State, published: bool)
    requires config.Valid() && SoloInv(config, s) && s.workers[0].Dispatching?
    ensures Solo(DispatchStep(s, 0, published))
  {
    var s' := DispatchStep(s, 0, published);
    if s.workers[0].records != [] {
      assert s.workers[0].records[0] in Held(s.workers[0]);
    }
    forall r | 0 <= r < |s'.rows| && s'.rows[r].lease.Some? ensures HoldsRow(s'.workers[0], r) {
      assert HoldsRow(s.workers[0], r);
    }
  }

  /** The first record's row is let go of; the others are other rows. */
  lemma SoloReleased(s: State, s': State, record: Record, rest: seq<Record>, row: Row)
    requires Solo(s) && Held(s.workers[0]) == [record] + rest && record in Held(s.workers[0])
    requires forall other :: other in rest ==> other in Held(s.workers[0]) && !SameClaim(record, other)
    requires row.lease.None?
    requires s' == s.(rows := s.rows[record.row := row], workers := s.workers[0 := Dispatching(rest)])
    ensures Solo(s')
  {
    assert Current(s.rows[record.row], record);
    forall other | other in rest ensures other.row < |s.rows| && other.row != record.row && Current(s.rows[other.row], other) {
      assert other in Held(s.workers[0]);
    }
    forall r | 0 <= r < |s'.rows| && s'.rows[r].lease.Some? ensures HoldsRow(s'.workers[0], r) {
      assert r != record.row && HoldsRow(s.workers[0], r);
      HoldsFewer(s.workers[0], s'.workers[0], record, r);
    }
  }

  lemma FirstAlone(config: OutboxConfig, s: State, records: seq<Record>)
    requires Inv(config, s) && |s.workers| == 1 && records != [] && Held(s.workers[0]) == records
    ensures records[0] in Held(s.workers[0]) && records[0].attempt >= 1
    ensures forall other :: other in records[1..] ==> other in Held(s.workers[0]) && !SameClaim(records[0], other)
  {
    HeldFacts(config, s, 0, records[0]);
    NoRepeatTail(records);
    forall other | other in records[1..] ensures other in Held(s.workers[0]) && !SameClaim(records[0], other) {
      OthersDiffer(config, s, 0, records[0], 0, other);
    }
  }

  lemma SoloMark(config: OutboxConfig, s: State)
    requires config.Valid() && SoloInv(config, s) && (s.workers[0].Marking? || s.workers[0].Failing?)
    ensures Solo(MarkStep(config, s, 0))
  {
    var records := s.workers[0].records;
    if records != [] {
      var record, rest := records[0], records[1..];
      assert records == [record] + rest;
      FirstAlone(config, s, records);
      SoloMarked(config, s, record, rest);
    }
  }

  lemma SoloMarked(config: OutboxConfig, s: State, record: Record, rest: seq<Record>)
    requires Solo(s) && (s.workers[0].Marking? || s.workers[0].Failing?)
    requires s.workers[0].records == [record] + rest && record in Held(s.workers[0])
    requires forall other :: other in rest ==> other in Held(s.workers[0]) && !SameClaim(record, other)
    requires record.attempt >= 1
    ensures Solo(MarkStep(config, s, 0))
  {
    assert Current(s.rows[record.row], record);
    var row := MarkStep(config, s, 0).rows[record.row];
    SoloReleased(s, MarkStep(config, s, 0), record, rest, row);
  }

  lemma SoloInsert(config: OutboxConfig, s: State, wellFormed: bool)
    requires config.Valid() && SoloInv(config, s)
    ensures Solo(Perform(config, s, Insert(wellFormed)))
  {
    var s' := Perform(config, s, Insert(wellFormed));
    forall r | 0 <= r < |s'.rows| && s'.rows[r].lease.Some? ensures HoldsRow(s'.workers[0], r) {
      assert r < |s.rows| && HoldsRow(s.workers[0], r);
    }
  }

  lemma SoloError(config: OutboxConfig, s: State)
    requires config.Valid() && SoloInv(config, s) && s.workers[0].Marking?
    ensures Solo(Perform(config, s, MarkError(0)))
  {
    var s' := Perform(config, s, MarkError(0));
    assert Held(s'.workers[0]) == Held(s.workers[0]);
    forall r | 0 <= r < |s'.rows| && s'.rows[r].lease.Some? ensures HoldsRow(s'.workers[0], r) {
      assert HoldsRow(s.workers[0], r);
    }
  }

  lemma SoloStep(config: OutboxConfig, s: State, step: Step)
    requires config.Valid() && SoloInv(config, s) && !step.Crash?
    ensures SoloInv(config, Perform(config, s, step))
  {
    StepKeeps(config, s, step);
    SoloKept(config, s, step);
  }

  lemma SoloKept(config: OutboxConfig, s: State, step: Step)
    requires config.Valid() && SoloInv(config, s) && !step.Crash?
    ensures Solo(Perform(config, s, step))
  {
    match step
    case Insert(wellFormed) => SoloInsert(config, s, wellFormed);
    case Tick(elapsed) =>
    case Begin(w, selected) => if w == 0 { SoloBegin(config, s, selected); }
    case ClaimNext(w) => if w == 0 && s.workers[0].Claiming? { SoloClaim(config, s); }
    case Dispatch(w, published) => if w == 0 && s.workers[0].Dispatching? { SoloDispatch(config, s, published); }
    case Mark(w) => if w == 0 && (s.workers[0].Marking? || s.workers[0].Failing?) { SoloMark(config, s); }
    case MarkError(w) => if w == 0 && s.workers[0].Marking? { SoloError(config, s); }
  }

  ghost predicate NoCrash(steps: seq<Step>) {
    forall i :: 0 <= i < |steps| ==> !steps[i].Crash?
  }

  lemma {:induction false} SoloRun(config: OutboxConfig, steps: seq<Step>)
    requires config.Valid() && NoCrash(steps)
    ensures SoloInv(config, Execute(config, Start(1), steps))
  {
    if steps != [] {
      SoloRun(config, steps[..|steps| - 1]);
      SoloStep(config, Execute(config, Start(1), steps[..|steps| - 1]), steps[|steps| - 1]);
    } else {
      Reachable(config, 1, []);
    }
  }

  /** Such a worker claims nothing but what is due and free. */
  lemma SoloNeverHasty(config: OutboxConfig, s: State, step: Step, r: nat)
    requires SoloInv(config, s)
    ensures !Hasty(config, s, step, r)
  {
    if StartsAttempt(config, s, step, r) {
      var c := s.workers[0].candidates[0];
      assert c in s.workers[0].candidates;
    }
  }

  /** With one worker that never stops, attempt k of a row starts no earlier than base * (2^(k-1) - 1) after the
      first; and whatever the worker holds it still owns, so no mark of its is ever lost. */
  lemma BackoffKept(config: OutboxConfig, steps: seq<Step>, r: nat)
    requires config.Valid() && NoCrash(steps)
    requires r < |Execute(config, Start(1), steps).rows|
    ensures var s := Execute(config, Start(1), steps);
      && |s.workers| == 1 && |s.traces| == |s.rows| && KeepsBackoff(config, s.traces[r].starts)
      && forall record :: record in Held(s.workers[0]) ==> record.row < |s.rows| && Owns(s.rows[record.row], record)
  {
    SoloRun(config, steps);
    forall k | 0 <= k < |steps| ensures !Hasty(config, Execute(config, Start(1), steps[..k]), steps[k], r) {
      SoloRun(config, steps[..k]);
      SoloNeverHasty(config, Execute(config, Start(1), steps[..k]), steps[k], r);
    }
    DueClaimsKeepBackoff(config, 1, steps, r);
  }

  // ---------------------------------------------------------------- late claims

  /** Worker 0 selects the only row at time 0 and claims it when the lease it is about to write is already over. */
  function LateClaiming(config: OutboxConfig): seq<Step> {
    [Insert(true), Begin(0, [0]), Tick(config.leaseMs), ClaimNext(0)]
  }

  ghost predicate ClaimedLate(config: OutboxConfig, workers: nat, s: State) {
    var lease := Lease(0, config.leaseMs);
    && s.clock == config.leaseMs
    && s.rows == [Row(AlertPending, 1, Some(lease), None, true)]
    && |s.traces| == 1 && s.traces[0].starts == [config.leaseMs]
    && |s.workers| == workers && workers >= 1
    && s.workers[0] == Claiming(0, [], [Record(0, 0, 1, lease)])
    && forall w :: 1 <= w < workers ==> s.workers[w] == Idle
  }

  /** Worker 0 has selected the only row and been busy for a lease. */
  lemma LateSelected(config: OutboxConfig, workers: nat) returns (s: State)
    requires config.Valid() && workers >= 1
    ensures s == Perform(config, Perform(config, Perform(config, Start(workers), Insert(true)), Begin(0, [0])), Tick(config.leaseMs))
    ensures s == State(config.leaseMs, [Row(AlertPending, 0, None, None, true)], [Trace([], [], {})],
                       Start(workers).workers[0 := Claiming(0, [Candidate(0, 0)], [])], 0)
  {
    var s1 := Perform(config, Start(workers), Insert(true));
    assert Selectable(config, s1, [0]);
    assert Snapshot(s1.rows, [0]) == [Candidate(0, 0)];
    s := Perform(config, Perform(config, s1, Begin(0, [0])), Tick(config.leaseMs));
  }

  lemma LateClaim(config: OutboxConfig, workers: nat)
    requires config.Valid() && workers >= 1
    ensures ClaimedLate(config, workers, Execute(config, Start(workers), LateClaiming(config)))
  {
    var s := LateSelected(config, workers);
    ClaimsLate(config, workers, s);
    FourSteps(config, Start(workers), Insert(true), Begin(0, [0]), Tick(config.leaseMs), ClaimNext(0));
  }

  lemma ClaimsLate(config: OutboxConfig, workers: nat, s: State)
    requires config.Valid() && workers >= 1
    requires s == State(config.leaseMs, [Row(AlertPending, 0, None, None, true)], [Trace([], [], {})],
                        Start(workers).workers[0 := Claiming(0, [Candidate(0, 0)], [])], 0)
    ensures ClaimedLate(config, workers, Perform(config, s, ClaimNext(0)))
  {
    assert s.workers[0] == Claiming(0, [Candidate(0, 0)], []);
    assert [Candidate(0, 0)][1..] == [] && [] + [config.leaseMs as int] == [config.leaseMs];
  }

  lemma FourSteps(config: OutboxConfig, s: State, a: Step, b: Step, c: Step, d: Step)
    ensures Execute(config, s, [a, b, c, d])
         == Perform(config, Perform(config, Perform(config, Perform(config, s, a), b), c), d)
  {
    ExecuteSnoc(config, s, [], a);
    ExecuteSnoc(config, s, [] + [a], b);
    ExecuteSnoc(config, s, [] + [a] + [b], c);
    ExecuteSnoc(config, s, [] + [a] + [b] + [c], d);
    assert [] + [a] + [b] + [c] + [d] == [a, b, c, d];
  }

  /** The only row has been attempted twice at one time. */
  ghost predicate Simultaneous(config: OutboxConfig, s: State) {
    |s.rows| == |s.traces| == 1 && s.traces[0].starts == [config.leaseMs, config.leaseMs]
  }

  /** That breaks the backoff, whatever its base. */
  lemma TooSoon(config: OutboxConfig, s: State)
    requires config.Valid() && Simultaneous(config, s)
    ensures !KeepsBackoff(config, s.traces[0].starts)
  {
    assert Pow2(1) == 2;
    assert s.traces[0].starts[1] < s.traces[0].starts[0] + TotalBackoff(config, 1);
  }

  // ---------------------------------------------------------------- a worker that stops

  /** A worker that stops after such a claim and comes back makes the second attempt at once. */
  lemma CrashBreaksBackoff(config: OutboxConfig, workers: nat) returns (steps: seq<Step>)
    requires config.Valid() && config.maximumAttempts >= 2 && workers >= 1
    ensures Simultaneous(config, Execute(config, Start(workers), steps))
  {
    var first := LateClaiming(config);
    var s0 := Execute(config, Start(workers), first);
    LateClaim(config, workers);
    var s1 := Perform(config, s0, Crash(0));
    assert Selectable(config, s1, [0]);
    assert Snapshot(s1.rows, [0]) == [Candidate(0, 1)];
    var s2 := Perform(config, s1, Begin(0, [0]));
    var s3 := Perform(config, s2, ClaimNext(0));
    assert s2.workers[0] == Claiming(config.leaseMs, [Candidate(0, 1)], []);
    steps := first + [Crash(0)] + [Begin(0, [0])] + [ClaimNext(0)];
    ExecuteSnoc(config, Start(workers), first, Crash(0));
    ExecuteSnoc(config, Start(workers), first + [Crash(0)], Begin(0, [0]));
    ExecuteSnoc(config, Start(workers), first + [Crash(0)] + [Begin(0, [0])], ClaimNext(0));
    assert [config.leaseMs as int] + [config.leaseMs] == [config.leaseMs, config.leaseMs];
  }

  // ---------------------------------------------------------------- two workers

  /** Worker 1 selects the row, worker 0 records its failure and the delay, worker 1 claims the row all the same. */
  const OVERTAKEN: seq<Step> := [ClaimNext(0), Begin(1, [0]), Dispatch(0, true), Mark(0)]

  /** The delay is written, and worker 1 is about to claim. */
  ghost predicate AboutToOvertake(config: OutboxConfig, workers: nat, s: State) {
    && s.clock == config.leaseMs && |s.traces| == 1 && s.traces[0].starts == [config.leaseMs]
    && s.rows == [Row(AlertPending, 1, None, Some(config.leaseMs + config.retryBaseMs), true)]
    && |s.workers| == workers && workers >= 2 && s.workers[1] == Claiming(config.leaseMs, [Candidate(0, 1)], [])
  }

  lemma FailureRecorded(config: OutboxConfig, workers: nat, s: State)
    requires config.Valid() && config.maximumAttempts >= 2 && workers >= 2 && ClaimedLate(config, workers, s)
    ensures AboutToOvertake(config, workers, Execute(config, s, OVERTAKEN))
  {
    var s1 := Perform(config, s, ClaimNext(0));
    assert Selectable(config, s1, [0]);
    assert Snapshot(s1.rows, [0]) == [Candidate(0, 1)];
    var s2 := Perform(config, s1, Begin(1, [0]));
    var s3 := Perform(config, s2, Dispatch(0, true));
    assert s3.workers[0] == Failing(s.workers[0].claimed);
    assert Pow2(0) == 1;
    FourSteps(config, s, ClaimNext(0), Begin(1, [0]), Dispatch(0, true), Mark(0));
  }

  lemma Overtakes(config: OutboxConfig, workers: nat, s: State)
    requires AboutToOvertake(config, workers, s)
    ensures Simultaneous(config, Perform(config, s, ClaimNext(1)))
  {
    assert [config.leaseMs as int] + [config.leaseMs] == [config.leaseMs, config.leaseMs];
  }

  lemma NobodyStops(config: OutboxConfig)
    ensures NoCrash(LateClaiming(config) + OVERTAKEN + [ClaimNext(1)])
  {}

  lemma Overtaken(config: OutboxConfig, workers: nat)
    requires config.Valid() && config.maximumAttempts >= 2 && workers >= 2
    ensures AboutToOvertake(config, workers, Execute(config, Start(workers), LateClaiming(config) + OVERTAKEN))
  {
    LateClaim(config, workers);
    ExecuteAppend(config, Start(workers), LateClaiming(config), OVERTAKEN);
    FailureRecorded(config, workers, Execute(config, Start(workers), LateClaiming(config)));
  }

  /** Without anyone stopping, a second worker makes the second attempt at once, although a failure has been recorded and
      a delay has been scheduled. */
  lemma TwoWorkersBreakBackoff(config: OutboxConfig, workers: nat) returns (before: seq<Step>)
    requires config.Valid() && config.maximumAttempts >= 2 && workers >= 2
    ensures NoCrash(before + [ClaimNext(1)])
    ensures var s := Execute(config, Start(workers), before);
      |s.rows| == 1 && s.rows[0].lease.None? && s.rows[0].nextAttemptAt == Some(s.clock + config.retryBaseMs)
    ensures Simultaneous(config, Execute(config, Start(workers), before + [ClaimNext(1)]))
  {
    before := LateClaiming(config) + OVERTAKEN;
    NobodyStops(config);
    Overtaken(config, workers);
    ExecuteSnoc(config, Start(workers), before, ClaimNext(1));
    Overtakes(config, workers, Execute(config, Start(workers), before));
  }

  // ---------------------------------------------------------------- exactly when the backoff holds

  /** The backoff of every row has been kept so far. */
  ghost predicate AllKept(config: OutboxConfig, s: State) {
    |s.traces| == |s.rows| && forall r :: 0 <= r < |s.traces| ==> KeepsBackoff(config, s.traces[r].starts)
  }

  ghost predicate KeptBy(config: OutboxConfig, workers: nat, steps: seq<Step>) {
    AllKept(config, Execute(config, Start(workers), steps))
  }

  /** Every run of so many workers keeps the backoff of every row; `crashes` says whether workers may stop. */
  ghost predicate AlwaysKept(config: OutboxConfig, workers: nat, crashes: bool) {
    forall steps :: crashes || NoCrash(steps) ==> KeptBy(config, workers, steps)
  }

  lemma OneAttemptKeeps(config: OutboxConfig, workers: nat, steps: seq<Step>)
    requires config.Valid() && config.maximumAttempts == 1
    ensures KeptBy(config, workers, steps)
  {
    var s := Execute(config, Start(workers), steps);
    Reachable(config, workers, steps);
    assert Pow2(0) == 1;
    forall r | 0 <= r < |s.traces| ensures KeepsBackoff(config, s.traces[r].starts) {
      assert RowOk(config, s.rows[r], s.traces[r]);
    }
  }

  lemma {:induction false} NobodyWorks(config: OutboxConfig, steps: seq<Step>)
    ensures var s := Execute(config, Start(0), steps);
      s.workers == [] && |s.traces| == |s.rows| && forall r :: 0 <= r < |s.traces| ==> s.traces[r].starts == []
  {
    if steps != [] {
      NobodyWorks(config, steps[..|steps| - 1]);
    }
  }

  lemma OneWorkerKeeps(config: OutboxConfig, steps: seq<Step>)
    requires config.Valid() && NoCrash(steps)
    ensures KeptBy(config, 1, steps)
  {
    var s := Execute(config, Start(1), steps);
    Reachable(config, 1, steps);
    forall r | 0 <= r < |s.traces| ensures KeepsBackoff(config, s.traces[r].starts) {
      BackoffKept(config, steps, r);
    }
  }

  /** For every configuration: all runs keep the backoff of all rows exactly when only one attempt is allowed, nobody
      works, or there is a single worker and it never stops. */
  lemma BackoffKeptExactly(config: OutboxConfig, workers: nat, crashes: bool)
    requires config.Valid()
    ensures AlwaysKept(config, workers, crashes) <==>
      config.maximumAttempts == 1 || workers == 0 || (workers == 1 && !crashes)
  {
    if config.maximumAttempts == 1 {
      forall steps ensures KeptBy(config, workers, steps) { OneAttemptKeeps(config, workers, steps); }
    } else if workers == 0 {
      forall steps ensures KeptBy(config, workers, steps) { NobodyWorks(config, steps); }
    } else if workers == 1 && !crashes {
      forall steps | NoCrash(steps) ensures KeptBy(config, workers, steps) { OneWorkerKeeps(config, steps); }
    } else {
      var steps;
      if crashes {
        steps := CrashBreaksBackoff(config, workers);
      } else {
        var before := TwoWorkersBreakBackoff(config, workers);
        steps := before + [ClaimNext(1)];
      }
      TooSoon(config, Execute(config, Start(workers), steps));
      assert !KeptBy(config, workers, steps);
    }
  }
}

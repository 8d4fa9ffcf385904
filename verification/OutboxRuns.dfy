/**
 What holds along every run of the outbox: bounded publishing, frozen outcomes, one marker per row, rows that are
 stuck for good, and the backoff that a single worker keeps and two workers do not.
 */
module OutboxRuns {
  import opened Wrappers
  import opened Leases
  import opened Outbox

  lemma {:induction false} ExecuteKeeps(config: OutboxConfig, s: State, steps: seq<Step>)
    requires config.Valid() && Inv(config, s)
    ensures Inv(config, Execute(config, s, steps))
  {
    if steps != [] {
      ExecuteKeeps(config, s, steps[..|steps| - 1]);
      StepKeeps(config, Execute(config, s, steps[..|steps| - 1]), steps[|steps| - 1]);
    }
  }

  lemma {:induction false} IncreasingLength(publishes: seq<nat>, attempts: nat)
    requires IncreasingUpTo(publishes, attempts)
    ensures |publishes| <= attempts
  {
    if publishes != [] {
      var init, last := publishes[..|publishes| - 1], publishes[|publishes| - 1];
      IncreasingLength(init, last - 1);
    }
  }

  /** However many workers there are and wherever they stop, a row is published at most once per attempt and at most
      as often as attempts are allowed, and it is only DELIVERED after the publisher has accepted it. */
  lemma PublishesBounded(config: OutboxConfig, workers: nat, steps: seq<Step>, r: nat)
    requires config.Valid() && r < |Execute(config, Start(workers), steps).rows|
    ensures var s := Execute(config, Start(workers), steps);
      && |s.traces| == |s.rows|
      && |s.traces[r].publishes| <= s.rows[r].attempts <= config.maximumAttempts
      && (forall i, j :: 0 <= i < j < |s.traces[r].publishes| ==> s.traces[r].publishes[i] < s.traces[r].publishes[j])
      && (s.rows[r].status == AlertDelivered ==> s.traces[r].accepted != {})
      && (s.rows[r].status == AlertPending && s.rows[r].lease.None? ==> s.rows[r].attempts < config.maximumAttempts)
  {
    Reachable(config, workers, steps);
    var s := Execute(config, Start(workers), steps);
    assert RowOk(config, s.rows[r], s.traces[r]);
    IncreasingLength(s.traces[r].publishes, s.rows[r].attempts);
  }

  // ---------------------------------------------------------------- outcomes

  /** DELIVERED and FAILED are final, and nothing is published after them. */
  lemma SettledStep(config: OutboxConfig, s: State, step: Step, r: nat)
    requires config.Valid() && Inv(config, s) && r < |s.rows| && s.rows[r].status != AlertPending
    ensures var s' := Perform(config, s, step);
      r < |s'.rows| == |s'.traces| && s'.rows[r] == s.rows[r] && s'.traces[r] == s.traces[r]
  {
    match step
    case Dispatch(w, published) =>
      if w < |s.workers| && s.workers[w].Dispatching? && s.workers[w].records != [] {
        PublishUnderLease(config, s, w, published);
      }
    case _ =>
  }

  lemma {:induction false} SettledForever(config: OutboxConfig, s: State, steps: seq<Step>, r: nat)
    requires config.Valid() && Inv(config, s) && r < |s.rows| && s.rows[r].status != AlertPending
    ensures var s' := Execute(config, s, steps);
      r < |s'.rows| == |s'.traces| && s'.rows[r] == s.rows[r] && s'.traces[r] == s.traces[r]
  {
    if steps != [] {
      SettledForever(config, s, steps[..|steps| - 1], r);
      ExecuteKeeps(config, s, steps[..|steps| - 1]);
      SettledStep(config, Execute(config, s, steps[..|steps| - 1]), steps[|steps| - 1], r);
    }
  }

  /** What marking can do to a row: nothing, unless the worker's first record is the row's newest claim. */
  lemma MarkNeedsNewest(config: OutboxConfig, s: State, w: nat, r: nat)
    requires Inv(config, s) && w < |s.workers| && r < |s.rows|
    ensures var s' := Perform(config, s, Mark(w));
      |s'.rows| == |s.rows|
      && (s'.rows[r] != s.rows[r] ==>
            Held(s.workers[w]) != [] && Held(s.workers[w])[0].row == r && Held(s.workers[w])[0].attempt == s.rows[r].attempts)
  {}

  /** Whoever has lost a row to a later claim cannot mark it any more: at most one worker can. */
  lemma OneMarker(config: OutboxConfig, s: State, v: nat, w: nat, r: nat)
    requires Inv(config, s) && v < |s.workers| && w < |s.workers| && r < |s.rows|
    requires Perform(config, s, Mark(v)).rows[r] != s.rows[r]
    requires Perform(config, s, Mark(w)).rows[r] != s.rows[r]
    ensures v == w
  {
    MarkNeedsNewest(config, s, v, r);
    MarkNeedsNewest(config, s, w, r);
    var a, b := Held(s.workers[v])[0], Held(s.workers[w])[0];
    assert a in Held(s.workers[v]) && b in Held(s.workers[w]);
    HeldFacts(config, s, v, a);
    HeldFacts(config, s, w, b);
    assert SameClaim(a, b);
  }

  // ---------------------------------------------------------------- stuck rows

  /** All attempts are used up and the worker that used the last one is gone. */
  ghost predicate Orphaned(config: OutboxConfig, s: State, r: nat) {
    && r < |s.rows| && s.rows[r].status == AlertPending && s.rows[r].attempts == config.maximumAttempts
    && forall i, record :: 0 <= i < |s.workers| && record in Held(s.workers[i]) ==>
         !(record.row == r && record.attempt == s.rows[r].attempts)
  }

  lemma OrphanedStep(config: OutboxConfig, s: State, step: Step, r: nat)
    requires config.Valid() && Inv(config, s) && Orphaned(config, s, r)
    ensures Perform(config, s, step).rows[..|s.rows|][r] == s.rows[r] && Orphaned(config, Perform(config, s, step), r)
  {
    var s' := Perform(config, s, step);
    match step
    case ClaimNext(w) =>
      if w < |s.workers| && s.workers[w].Claiming? { OrphanedClaim(config, s, w, r); }
    case Mark(w) =>
      if w < |s.workers| {
        OrphanedMark(config, s, w, r);
      }
    case _ => NothingNewHeld(config, s, step);
  }

  /** Only a claim gives a worker a record. */
  lemma NothingNewHeld(config: OutboxConfig, s: State, step: Step)
    requires !step.ClaimNext? && !step.Mark?
    ensures var s' := Perform(config, s, step);
      && |s'.workers| == |s.workers| && |s'.rows| >= |s.rows| && s'.rows[..|s.rows|] == s.rows
      && forall i, record :: 0 <= i < |s.workers| && record in Held(s'.workers[i]) ==> record in Held(s.workers[i])
  {}

  lemma OrphanedClaim(config: OutboxConfig, s: State, w: nat, r: nat)
    requires Inv(config, s) && Orphaned(config, s, r) && w < |s.workers| && s.workers[w].Claiming?
    ensures var s' := ClaimStep(config, s, w);
      |s'.rows| == |s.rows| && s'.rows[r] == s.rows[r] && Orphaned(config, s', r)
  {
    ClaimNeedsFreeLease(config, s, w, r);
    var s' := ClaimStep(config, s, w);
    forall i, record | 0 <= i < |s'.workers| && record in Held(s'.workers[i])
      ensures !(record.row == r && record.attempt == s.rows[r].attempts)
    {
      if record !in Held(s.workers[i]) {
        assert i == w && s'.rows[record.row] != s.rows[record.row];
      }
    }
  }

  lemma OrphanedMark(config: OutboxConfig, s: State, w: nat, r: nat)
    requires Inv(config, s) && Orphaned(config, s, r) && w < |s.workers|
    ensures var s' := Perform(config, s, Mark(w));
      |s'.rows| == |s.rows| && s'.rows[r] == s.rows[r] && Orphaned(config, s', r)
  {
    MarkNeedsNewest(config, s, w, r);
    var s' := Perform(config, s, Mark(w));
    if Held(s.workers[w]) != [] {
      assert Held(s.workers[w])[0] in Held(s.workers[w]);
    }
    forall i, record | 0 <= i < |s'.workers| && record in Held(s'.workers[i]) ensures record in Held(s.workers[i]) {}
  }

  /** Such a row stays PENDING for good: no run ever touches it again. */
  lemma {:induction false} OrphanedForever(config: OutboxConfig, s: State, steps: seq<Step>, r: nat)
    requires config.Valid() && Inv(config, s) && Orphaned(config, s, r)
    ensures Orphaned(config, Execute(config, s, steps), r) && Execute(config, s, steps).rows[r] == s.rows[r]
  {
    if steps != [] {
      var before := Execute(config, s, steps[..|steps| - 1]);
      OrphanedForever(config, s, steps[..|steps| - 1], r);
      ExecuteKeeps(config, s, steps[..|steps| - 1]);
      OrphanedStep(config, before, steps[|steps| - 1], r);
    }
  }

  function Later(a: int, b: int): nat {
    if a < b then b - a else 0
  }

  /** How long to wait until nothing but the number of attempts can keep the row from being claimed. */
  function Wait(s: State, row: Row): nat {
    (if row.lease.None? then 0 else Later(s.clock, row.lease.value.expiresAt))
    + if row.nextAttemptAt.None? then 0 else Later(s.clock, row.nextAttemptAt.value)
  }

  /** A fresh worker that has waited long enough claims the row. */
  lemma ClaimAfterWaiting(config: OutboxConfig, s: State, r: nat) returns (steps: seq<Step>)
    requires config.Valid() && Inv(config, s) && |s.workers| >= 1
    requires r < |s.rows| && s.rows[r].status == AlertPending && s.rows[r].attempts < config.maximumAttempts
    ensures var s' := Execute(config, s, steps);
      && Inv(config, s') && |s'.rows| == |s.rows| && |s'.workers| == |s.workers|
      && s'.workers[0].Dispatching? && |s'.workers[0].records| == 1
      && s'.workers[0].records[0].row == r && s'.workers[0].records[0].lease.expiresAt > s'.clock
      && s'.rows[r].attempts == s.rows[r].attempts + 1 && s'.rows[r].status == AlertPending
  {
    var elapsed := Wait(s, s.rows[r]);
    var s1 := Perform(config, s, Crash(0));
    var s2 := Perform(config, s1, Tick(elapsed));
    var s3 := Perform(config, s2, Begin(0, [r]));
    var s4 := Perform(config, s3, ClaimNext(0));
    var s5 := Perform(config, s4, ClaimNext(0));
    steps := [];
    ExecuteSnoc(config, s, steps, Crash(0));
    steps := steps + [Crash(0)];
    ExecuteSnoc(config, s, steps, Tick(elapsed));
    steps := steps + [Tick(elapsed)];
    ExecuteSnoc(config, s, steps, Begin(0, [r]));
    steps := steps + [Begin(0, [r])];
    ExecuteSnoc(config, s, steps, ClaimNext(0));
    steps := steps + [ClaimNext(0)];
    ExecuteSnoc(config, s, steps, ClaimNext(0));
    steps := steps + [ClaimNext(0)];
    ExecuteKeeps(config, s, steps);
    ClaimSteps(config, s2, r);
  }

  lemma ClaimSteps(config: OutboxConfig, s: State, r: nat)
    requires config.Valid() && |s.workers| >= 1 && s.workers[0] == Idle && |s.traces| == |s.rows|
    requires r < |s.rows| && Eligible(s.rows[r], config.maximumAttempts, s.clock)
    ensures var s' := Perform(config, Perform(config, Perform(config, s, Begin(0, [r])), ClaimNext(0)), ClaimNext(0));
      var lease := Lease(s.nextLease, s.clock + config.leaseMs);
      && |s'.rows| == |s.rows| && |s'.workers| == |s.workers| && s'.clock == s.clock
      && s'.workers == s.workers[0 := Dispatching([Record(0, r, s.rows[r].attempts + 1, lease)])]
      && s'.rows[r] == s.rows[r].(attempts := s.rows[r].attempts + 1, lease := Some(lease), nextAttemptAt := None)
      && |s'.traces| == |s.traces| && s'.traces[r].starts == s.traces[r].starts + [s.clock]
  {
    assert Selectable(config, s, [r]);
    var s1 := Perform(config, s, Begin(0, [r]));
    assert s1.workers[0] == Claiming(s.clock, Snapshot(s.rows, [r]), []);
    var s2 := Perform(config, s1, ClaimNext(0));
    assert s2.workers[0].candidates == [];
    var s3 := Perform(config, s2, ClaimNext(0));
    assert s3.workers == s.workers[0 := s3.workers[0]];
    assert [] + [Record(0, r, s.rows[r].attempts + 1, Lease(s.nextLease, s.clock + config.leaseMs))]
        == [Record(0, r, s.rows[r].attempts + 1, Lease(s.nextLease, s.clock + config.leaseMs))];
  }

  /** The outcome of one more attempt. */
  ghost predicate Progress(config: OutboxConfig, before: Row, after: Row) {
    || after.status != AlertPending
    || (after.attempts == before.attempts + 1 && after.attempts < config.maximumAttempts)
  }

  lemma OneRound(config: OutboxConfig, s: State, r: nat) returns (steps: seq<Step>)
    requires config.Valid() && Inv(config, s) && |s.workers| >= 1
    requires r < |s.rows| && s.rows[r].status == AlertPending && s.rows[r].attempts < config.maximumAttempts
    ensures var s' := Execute(config, s, steps);
      && Inv(config, s') && |s'.rows| == |s.rows| && |s'.workers| == |s.workers|
      && Progress(config, s.rows[r], s'.rows[r])
  {
    steps := ClaimAfterWaiting(config, s, r);
    var t := Execute(config, s, steps);
    assert t.workers[0].records[0] in Held(t.workers[0]);
    HeldFacts(config, t, 0, t.workers[0].records[0]);
    DispatchAndMark(config, t, r);
    ExecuteSnoc(config, s, steps, Dispatch(0, true));
    steps := steps + [Dispatch(0, true)];
    ExecuteSnoc(config, s, steps, Mark(0));
    steps := steps + [Mark(0)];
    ExecuteKeeps(config, s, steps);
  }

  lemma DispatchAndMark(config: OutboxConfig, t: State, r: nat)
    requires |t.workers| >= 1 && |t.traces| == |t.rows| && t.workers[0].Dispatching? && |t.workers[0].records| == 1
    requires r < |t.rows| && t.workers[0].records[0].row == r
    requires Current(t.rows[r], t.workers[0].records[0])
    ensures var s' := Perform(config, Perform(config, t, Dispatch(0, true)), Mark(0));
      && |s'.rows| == |t.rows| && |s'.workers| == |t.workers|
      && (s'.rows[r].status != AlertPending
          || (s'.rows[r].attempts == t.rows[r].attempts && s'.rows[r].attempts < config.maximumAttempts))
  {}

  lemma {:induction false} Settle(config: OutboxConfig, s: State, r: nat) returns (steps: seq<Step>)
    requires config.Valid() && Inv(config, s) && |s.workers| >= 1
    requires r < |s.rows| && s.rows[r].status == AlertPending && s.rows[r].attempts < config.maximumAttempts
    ensures var s' := Execute(config, s, steps); r < |s'.rows| && s'.rows[r].status != AlertPending
    decreases config.maximumAttempts - s.rows[r].attempts
  {
    var first := OneRound(config, s, r);
    var t := Execute(config, s, first);
    if t.rows[r].status != AlertPending {
      steps := first;
    } else {
      var rest := Settle(config, t, r);
      steps := first + rest;
      ExecuteAppend(config, s, first, rest);
    }
  }

  lemma {:induction false} ExecuteAppend(config: OutboxConfig, s: State, a: seq<Step>, b: seq<Step>)
    ensures Execute(config, s, a + b) == Execute(config, Execute(config, s, a), b)
  {
    if b == [] {
      assert a + b == a;
    } else {
      var init, last := b[..|b| - 1], b[|b| - 1];
      assert b == init + [last];
      assert a + b == (a + init) + [last];
      ExecuteAppend(config, s, a, init);
      ExecuteSnoc(config, s, a + init, last);
      ExecuteSnoc(config, Execute(config, s, a), init, last);
    }
  }

  ghost predicate Settles(config: OutboxConfig, s: State, r: nat, steps: seq<Step>) {
    var s' := Execute(config, s, steps);
    r < |s'.rows| && s'.rows[r].status != AlertPending
  }

  /** With every worker idle a pending row can still be settled exactly when it has an attempt left. */
  lemma SettlesExactly(config: OutboxConfig, s: State, r: nat)
    requires config.Valid() && Inv(config, s) && |s.workers| >= 1 && r < |s.rows| && s.rows[r].status == AlertPending
    requires forall i :: 0 <= i < |s.workers| ==> s.workers[i].Idle?
    ensures (exists steps :: Settles(config, s, r, steps)) <==> s.rows[r].attempts < config.maximumAttempts
  {
    if s.rows[r].attempts < config.maximumAttempts {
      var steps := Settle(config, s, r);
      assert Settles(config, s, r, steps);
    } else {
      assert RowOk(config, s.rows[r], s.traces[r]);
      forall steps ensures !Settles(config, s, r, steps) {
        OrphanedForever(config, s, steps, r);
      }
    }
  }

  /** A worker that stops after every claim uses up the attempts of a row one by one. */
  lemma {:induction false} AttemptsUsedUp(config: OutboxConfig, attempts: nat) returns (steps: seq<Step>)
    requires config.Valid() && attempts <= config.maximumAttempts
    ensures var s := Execute(config, Start(1), steps);
      && Inv(config, s) && s.workers == [Idle] && |s.rows| == 1
      && s.rows[0].status == AlertPending && s.rows[0].attempts == attempts
  {
    if attempts == 0 {
      ExecuteSnoc(config, Start(1), [], Insert(true));
      steps := [] + [Insert(true)];
      Reachable(config, 1, steps);
    } else {
      var before := AttemptsUsedUp(config, attempts - 1);
      var s := Execute(config, Start(1), before);
      var claim := ClaimAfterWaiting(config, s, 0);
      ExecuteAppend(config, Start(1), before, claim);
      ExecuteSnoc(config, Start(1), before + claim, Crash(0));
      steps := before + claim + [Crash(0)];
      Reachable(config, 1, steps);
      assert Execute(config, Start(1), steps).workers == [Idle];
    }
  }

  /** Whatever the number of attempts, such a worker leaves a row behind that no continuation settles. */
  lemma LastAttemptCanBeLost(config: OutboxConfig) returns (steps: seq<Step>)
    requires config.Valid()
    ensures var s := Execute(config, Start(1), steps);
      Orphaned(config, s, 0) && forall more :: !Settles(config, s, 0, more)
  {
    steps := AttemptsUsedUp(config, config.maximumAttempts);
    SettlesExactly(config, Execute(config, Start(1), steps), 0);
  }
}

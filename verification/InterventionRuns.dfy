/**
 What holds along every interleaving of executors, users, challenges and expiry: writes follow the transition table,
 outcomes are final, attempts are bounded, satisfaction rests on a passed challenge, and exhausted rows are stranded.
 */
module InterventionRuns {
  import opened Wrappers
  import opened Leases
  import opened Interventions

  ghost predicate PassedFor(challenges: seq<Challenge>, r: nat) {
    exists c :: 0 <= c < |challenges| && challenges[c].intervention == r && challenges[c].status == ChallengePassed
  }

  ghost predicate RowOk(config: Config, row: Row) {
    && row.attempts <= config.maximumAttempts
    && (!Terminal(row.status) ==> !row.resolved)
    && (config.checked ==> LifecycleOk(row) && row.status != FailedStatus)
  }

  /** What a user is about to write is allowed from what was read, and a release rests on a passed challenge. */
  ghost predicate UserOk(challenges: seq<Challenge>, user: User) {
    match user
    case Resting => true
    case Writing(_, expected, next) => next in Next(expected) && next != Satisfied && next != FailedStatus
    case Releasing(row, challenge) =>
      challenge < |challenges| && challenges[challenge].intervention == row
      && challenges[challenge].status == ChallengePassed
  }

  ghost predicate ExecutorOk(config: Config, executor: Executor) {
    !executor.Waiting? ==> forall c :: c in executor.candidates ==> c.attempts < config.maximumAttempts
  }

  ghost predicate Inv(config: Config, s: System) {
    && (forall r :: 0 <= r < |s.rows| ==> RowOk(config, s.rows[r]))
    && (forall r :: 0 <= r < |s.rows| && s.rows[r].status == Satisfied ==> PassedFor(s.challenges, r))
    && (forall u :: 0 <= u < |s.users| ==> UserOk(s.challenges, s.users[u]))
    && forall e :: 0 <= e < |s.executors| ==> ExecutorOk(config, s.executors[e])
  }

  // ---------------------------------------------------------------- single rows

  /** What one step may do to an intervention: move it along the table, or leave its status. */
  ghost predicate Lawful(before: Row, after: Row) {
    && (after.status != before.status ==> after.status in Next(before.status))
    && (Terminal(before.status) ==> after == before)
    && after.hold == before.hold && after.reference == before.reference && after.demo == before.demo
    && after.expiresAt == before.expiresAt && after.attempts >= before.attempts
  }

  lemma MoveLawful(config: Config, row: Row, expected: Status, next: Status)
    requires RowOk(config, row) && next in Next(expected) && next != FailedStatus && MoveRow(row, expected, next).Some?
    ensures Lawful(row, MoveRow(row, expected, next).value) && RowOk(config, MoveRow(row, expected, next).value)
  {}

  lemma ClaimLawful(config: Config, row: Row, attempts: nat, now: int, lease: Lease)
    requires RowOk(config, row) && attempts < config.maximumAttempts && ClaimRow(row, attempts, now, lease).Some?
    ensures Lawful(row, ClaimRow(row, attempts, now, lease).value)
    ensures RowOk(config, ClaimRow(row, attempts, now, lease).value)
  {}

  lemma SettleLawful(config: Config, row: Row, record: Record, now: int)
    requires RowOk(config, row)
    ensures Lawful(row, CompleteRow(row, record)) && RowOk(config, CompleteRow(row, record))
    ensures FailRow(config, row, record, now).Some? ==>
      Lawful(row, FailRow(config, row, record, now).value) && RowOk(config, FailRow(config, row, record, now).value)
  {}

  lemma ExpireLawful(config: Config, row: Row, now: int)
    requires RowOk(config, row)
    ensures Lawful(row, ExpireRow(row, now)) && RowOk(config, ExpireRow(row, now))
  {}

  // ---------------------------------------------------------------- one step

  /** The rows after a step: every one moved lawfully and is still in order, and none became satisfied but by a release
      that rests on a passed challenge. */
  ghost predicate RowsStep(config: Config, before: seq<Row>, after: seq<Row>, challenges: seq<Challenge>) {
    && |after| >= |before|
    && (forall r :: 0 <= r < |before| ==> Lawful(before[r], after[r]))
    && (forall r :: 0 <= r < |after| ==> RowOk(config, after[r]))
    && (forall r :: 0 <= r < |before| && after[r].status == Satisfied ==>
          before[r].status == Satisfied || PassedFor(challenges, r))
    && forall r :: |before| <= r < |after| ==> after[r].status == Required
  }

  lemma WriteStep(config: Config, s: System, u: nat)
    requires Inv(config, s) && u < |s.users|
    ensures RowsStep(config, s.rows, WriteUser(s.rows, s.users[u]), s.challenges)
  {
    assert UserOk(s.challenges, s.users[u]);
    match s.users[u]
    case Resting =>
    case Writing(i, expected, next) =>
      if i < |s.rows| && MoveRow(s.rows[i], expected, next).Some? { MoveLawful(config, s.rows[i], expected, next); }
    case Releasing(i, c) =>
      if i < |s.rows| && MoveRow(s.rows[i], InProgress, Satisfied).Some? {
        MoveLawful(config, s.rows[i], InProgress, Satisfied);
        assert PassedFor(s.challenges, i);
      }
  }

  lemma ClaimRows(config: Config, s: System, e: nat)
    requires Inv(config, s) && e < |s.executors| && s.executors[e].Scanning?
    ensures RowsStep(config, s.rows, ClaimStep(config, s, e).rows, s.challenges)
  {
    var x := s.executors[e];
    assert ExecutorOk(config, x);
    if x.candidates != [] && x.candidates[0].row < |s.rows| {
      var c, lease := x.candidates[0], Lease(s.nextLease, s.clock + config.leaseMs);
      assert c in x.candidates;
      if ClaimRow(s.rows[c.row], c.attempts, x.now, lease).Some? {
        ClaimLawful(config, s.rows[c.row], c.attempts, x.now, lease);
      }
    }
  }

  lemma SettleRows(config: Config, s: System, e: nat)
    requires Inv(config, s) && e < |s.executors| && (s.executors[e].Completing? || s.executors[e].Failing?)
    ensures RowsStep(config, s.rows, SettleStep(config, s, e).rows, s.challenges)
  {
    var record := s.executors[e].record;
    if record.row < |s.rows| { SettleLawful(config, s.rows[record.row], record, s.clock); }
  }

  lemma RowsOfStep(config: Config, s: System, step: Step)
    requires Inv(config, s)
    ensures RowsStep(config, s.rows, Perform(config, s, step).rows, s.challenges)
  {
    match step
    case Expire =>
      forall r | 0 <= r < |s.rows|
        ensures Lawful(s.rows[r], ExpireRow(s.rows[r], s.clock)) && RowOk(config, ExpireRow(s.rows[r], s.clock))
      {
        ExpireLawful(config, s.rows[r], s.clock);
      }
    case Write(u) => if u < |s.users| { WriteStep(config, s, u); }
    case Claim(e) => if e < |s.executors| && s.executors[e].Scanning? { ClaimRows(config, s, e); }
    case Settle(e) =>
      if e < |s.executors| && (s.executors[e].Completing? || s.executors[e].Failing?) { SettleRows(config, s, e); }
    case _ =>
  }

  /** Challenges only follow their table; a settled one is frozen. */
  ghost predicate ChallengesStep(before: seq<Challenge>, after: seq<Challenge>) {
    && |after| >= |before|
    && forall c :: 0 <= c < |before| ==>
         && after[c].intervention == before[c].intervention
         && (after[c].status != before[c].status ==> after[c].status in ChallengeNext(before[c].status))
  }

  lemma ChallengesOfStep(config: Config, s: System, step: Step)
    ensures ChallengesStep(s.challenges, Perform(config, s, step).challenges)
  {}

  lemma PassedStays(before: seq<Challenge>, after: seq<Challenge>, r: nat)
    requires ChallengesStep(before, after) && PassedFor(before, r)
    ensures PassedFor(after, r)
  {
    var c :| 0 <= c < |before| && before[c].intervention == r && before[c].status == ChallengePassed;
    assert after[c].status == ChallengePassed;
  }

  lemma UsersOfStep(config: Config, s: System, step: Step, u: nat)
    requires Inv(config, s) && u < |s.users|
    ensures var s' := Perform(config, s, step); |s'.users| == |s.users| && UserOk(s'.challenges, s'.users[u])
  {
    ChallengesOfStep(config, s, step);
    assert UserOk(s.challenges, s.users[u]);
  }

  lemma ExecutorsOfStep(config: Config, s: System, step: Step, e: nat)
    requires Inv(config, s) && e < |s.executors|
    ensures var s' := Perform(config, s, step); |s'.executors| == |s.executors| && ExecutorOk(config, s'.executors[e])
  {
    assert ExecutorOk(config, s.executors[e]);
    if step.Claim? && step.e == e && s.executors[e].Scanning? && s.executors[e].candidates != [] {
      assert forall c :: c in s.executors[e].candidates[1..] ==> c in s.executors[e].candidates;
    }
  }

  lemma StepKeeps(config: Config, s: System, step: Step)
    requires Inv(config, s)
    ensures Inv(config, Perform(config, s, step))
  {
    var s' := Perform(config, s, step);
    RowsOfStep(config, s, step);
    ChallengesOfStep(config, s, step);
    forall r | 0 <= r < |s'.rows| && s'.rows[r].status == Satisfied ensures PassedFor(s'.challenges, r) {
      assert PassedFor(s.challenges, r);
      PassedStays(s.challenges, s'.challenges, r);
    }
    forall u | 0 <= u < |s'.users| ensures UserOk(s'.challenges, s'.users[u]) {
      UsersOfStep(config, s, step, u);
    }
    forall e | 0 <= e < |s'.executors| ensures ExecutorOk(config, s'.executors[e]) {
      ExecutorsOfStep(config, s, step, e);
    }
  }

  lemma {:induction false} Reachable(config: Config, users: nat, executors: nat, steps: seq<Step>)
    ensures Inv(config, Execute(config, Empty(users, executors), steps))
  {
    if steps != [] {
      Reachable(config, users, executors, steps[..|steps| - 1]);
      StepKeeps(config, Execute(config, Empty(users, executors), steps[..|steps| - 1]), steps[|steps| - 1]);
    }
  }

  lemma {:induction false} ExecuteKeeps(config: Config, s: System, steps: seq<Step>)
    requires Inv(config, s)
    ensures Inv(config, Execute(config, s, steps))
  {
    if steps != [] {
      ExecuteKeeps(config, s, steps[..|steps| - 1]);
      StepKeeps(config, Execute(config, s, steps[..|steps| - 1]), steps[|steps| - 1]);
    }
  }

  // ---------------------------------------------------------------- runs

  /** Every write of every run follows the transition table, whoever makes it and whatever is stale. */
  lemma WritesFollowTable(config: Config, users: nat, executors: nat, steps: seq<Step>, step: Step, r: nat)
    requires r < |Execute(config, Empty(users, executors), steps).rows|
    ensures var s := Execute(config, Empty(users, executors), steps);
      var s' := Perform(config, s, step);
      && r < |s'.rows| && s.rows[r].attempts <= s'.rows[r].attempts <= config.maximumAttempts
      && (s'.rows[r].status != s.rows[r].status ==> s'.rows[r].status in Next(s.rows[r].status))
      && (s'.rows[r].status == Satisfied ==> PassedFor(s'.challenges, r))
  {
    Reachable(config, users, executors, steps);
    var s := Execute(config, Empty(users, executors), steps);
    StepKeeps(config, s, step);
    RowsOfStep(config, s, step);
    assert Lawful(s.rows[r], Perform(config, s, step).rows[r]);
    assert RowOk(config, Perform(config, s, step).rows[r]);
  }

  /** A resolved intervention is frozen. */
  lemma {:induction false} TerminalForever(config: Config, s: System, steps: seq<Step>, r: nat)
    requires Inv(config, s) && r < |s.rows| && Terminal(s.rows[r].status)
    ensures r < |Execute(config, s, steps).rows| && Execute(config, s, steps).rows[r] == s.rows[r]
  {
    if steps != [] {
      var before := Execute(config, s, steps[..|steps| - 1]);
      TerminalForever(config, s, steps[..|steps| - 1], r);
      ExecuteKeeps(config, s, steps[..|steps| - 1]);
      RowsOfStep(config, before, steps[|steps| - 1]);
      assert Lawful(before.rows[r], Perform(config, before, steps[|steps| - 1]).rows[r]);
    }
  }

  /** A passed challenge stays passed, so what satisfied an intervention remains on record. */
  lemma {:induction false} PassedForever(config: Config, s: System, steps: seq<Step>, c: nat)
    requires c < |s.challenges| && s.challenges[c].status == ChallengePassed
    ensures var after := Execute(config, s, steps).challenges;
      c < |after| && after[c].status == ChallengePassed && after[c].intervention == s.challenges[c].intervention
  {
    if steps != [] {
      PassedForever(config, s, steps[..|steps| - 1], c);
      ChallengesOfStep(config, Execute(config, s, steps[..|steps| - 1]), steps[|steps| - 1]);
    }
  }

  // ---------------------------------------------------------------- the dead letter that is never written

  /** The executor's last failure sets FAILED without the time of resolution, which the schema's check refuses: with
      the check in force no intervention ever fails. */
  lemma NothingEverFails(config: Config, users: nat, executors: nat, steps: seq<Step>, r: nat)
    requires config.checked && r < |Execute(config, Empty(users, executors), steps).rows|
    ensures Execute(config, Empty(users, executors), steps).rows[r].status != FailedStatus
  {
    Reachable(config, users, executors, steps);
    assert RowOk(config, Execute(config, Empty(users, executors), steps).rows[r]);
  }

  predicate ByExecutor(step: Step) {
    step.Scan? || step.Claim? || step.Dispatch? || step.Settle? || step.Crash?
  }

  /** Still REQUIRED after the last attempt, which nobody holds any more. */
  ghost predicate Stranded(config: Config, s: System, r: nat) {
    && r < |s.rows| && s.rows[r].status == Required && s.rows[r].attempts == config.maximumAttempts
    && forall e :: 0 <= e < |s.executors| ==> !HoldsLast(s.executors[e], r, config.maximumAttempts)
  }

  ghost predicate HoldsLast(executor: Executor, r: nat, attempts: nat) {
    (executor.Dispatching? || executor.Completing? || executor.Failing?)
    && executor.record.row == r && executor.record.attempt == attempts
  }

  /** No executor ever touches such a row again. */
  lemma StrandedStep(config: Config, s: System, step: Step, r: nat)
    requires Inv(config, s) && Stranded(config, s, r) && ByExecutor(step)
    ensures Stranded(config, Perform(config, s, step), r) && Perform(config, s, step).rows[r] == s.rows[r]
  {
    match step
    case Claim(e) =>
      if e < |s.executors| && s.executors[e].Scanning? && s.executors[e].candidates != [] {
        assert ExecutorOk(config, s.executors[e]);
        assert s.executors[e].candidates[0] in s.executors[e].candidates;
      }
    case Settle(e) =>
      if e < |s.executors| { assert !HoldsLast(s.executors[e], r, config.maximumAttempts); }
    case _ =>
  }

  lemma {:induction false} StrandedByExecutors(config: Config, s: System, steps: seq<Step>, r: nat)
    requires Inv(config, s) && Stranded(config, s, r)
    requires forall i :: 0 <= i < |steps| ==> ByExecutor(steps[i]) || steps[i].Tick? || (steps[i].Expire? && s.rows[r].expiresAt.None?)
    ensures Stranded(config, Execute(config, s, steps), r) && Execute(config, s, steps).rows[r] == s.rows[r]
  {
    if steps != [] {
      var init := steps[..|steps| - 1];
      var before := Execute(config, s, init);
      assert forall i :: 0 <= i < |init| ==> init[i] == steps[i];
      StrandedByExecutors(config, s, init, r);
      ExecuteKeeps(config, s, init);
      if ByExecutor(steps[|steps| - 1]) { StrandedStep(config, before, steps[|steps| - 1], r); }
    }
  }

  lemma ExecuteSnoc(config: Config, s: System, steps: seq<Step>, step: Step)
    ensures Execute(config, s, steps + [step]) == Perform(config, Execute(config, s, steps), step)
  {
    assert (steps + [step])[..|steps|] == steps;
  }

  // ---------------------------------------------------------------- dispatches that come to nothing

  /** The executor is working on this claim. */
  ghost predicate Holds(executor: Executor, record: Record) {
    (executor.Dispatching? || executor.Completing? || executor.Failing?) && executor.record == record
  }

  predicate StepOf(step: Step, e: nat) {
    match step
    case Scan(x, _) => x == e
    case Claim(x) => x == e
    case Dispatch(x, _) => x == e
    case Settle(x) => x == e
    case Crash(x) => x == e
    case _ => false
  }

  /** While executor `e` holds the claim, this step of somebody else takes its row away. */
  ghost predicate TakenAway(config: Config, s: System, steps: seq<Step>, k: nat, e: nat, record: Record) {
    k < |steps| && !StepOf(steps[k], e)
    && var before, after := Execute(config, s, steps[..k]), Execute(config, s, steps[..k + 1]);
       && e < |before.executors| && Holds(before.executors[e], record)
       && record.row < |before.rows| && record.row < |after.rows|
       && Owns(before.rows[record.row], record) && !Owns(after.rows[record.row], record)
  }

  /** A claim comes about only by the executor's own claiming step, and then the row is its own. */
  lemma ClaimOwns(config: Config, s: System, step: Step, e: nat, record: Record)
    requires e < |s.executors| && !Holds(s.executors[e], record)
    requires e < |Perform(config, s, step).executors| && Holds(Perform(config, s, step).executors[e], record)
    ensures var rows' := Perform(config, s, step).rows;
      record.row < |rows'| && Owns(rows'[record.row], record)
  {}

  /** The executor's own steps do not touch the row while it keeps the claim. */
  lemma OwnStepKeepsRow(config: Config, s: System, step: Step, e: nat, record: Record)
    requires e < |s.executors| && Holds(s.executors[e], record) && StepOf(step, e)
    requires Holds(Perform(config, s, step).executors[e], record) && record.row < |s.rows|
    ensures record.row < |Perform(config, s, step).rows|
    ensures Perform(config, s, step).rows[record.row] == s.rows[record.row]
  {}

  lemma ExecutorsKept(config: Config, s: System, step: Step)
    ensures |Perform(config, s, step).executors| == |s.executors| && |Perform(config, s, step).rows| >= |s.rows|
  {}

  lemma TakenEarlier(config: Config, s: System, steps: seq<Step>, k: nat, e: nat, record: Record)
    requires steps != [] && TakenAway(config, s, steps[..|steps| - 1], k, e, record)
    ensures TakenAway(config, s, steps, k, e, record)
  {
    var init := steps[..|steps| - 1];
    assert init[..k] == steps[..k] && init[..k + 1] == steps[..k + 1];
  }

  ghost predicate WasTaken(config: Config, s: System, steps: seq<Step>, e: nat, record: Record) {
    exists k :: 0 <= k < |steps| && TakenAway(config, s, steps, k, e, record)
  }

  /** A held claim whose row is not the executor's own any more was taken away. */
  lemma {:induction false} LostWasTaken(config: Config, users: nat, executors: nat, steps: seq<Step>, e: nat, record: Record)
    requires var s := Execute(config, Empty(users, executors), steps);
      e < |s.executors| && Holds(s.executors[e], record) && (record.row < |s.rows| ==> !Owns(s.rows[record.row], record))
    ensures record.row < |Execute(config, Empty(users, executors), steps).rows|
    ensures WasTaken(config, Empty(users, executors), steps, e, record)
  {
    var start := Empty(users, executors);
    if steps != [] {
      var init, last := steps[..|steps| - 1], steps[|steps| - 1];
      var before := Execute(config, start, init);
      ExecutorsKept(config, before, last);
      if Holds(before.executors[e], record) {
        if record.row < |before.rows| && Owns(before.rows[record.row], record) {
          TakenNow(config, start, steps, e, record);
        } else {
          LostWasTaken(config, users, executors, init, e, record);
          var k :| 0 <= k < |init| && TakenAway(config, start, init, k, e, record);
          TakenEarlier(config, start, steps, k, e, record);
        }
      } else {
        ClaimOwns(config, before, last, e, record);
      }
    }
  }

  lemma TakenNow(config: Config, start: System, steps: seq<Step>, e: nat, record: Record)
    requires steps != []
    requires var before := Execute(config, start, steps[..|steps| - 1]);
      e < |before.executors| && Holds(before.executors[e], record)
      && record.row < |before.rows| && Owns(before.rows[record.row], record)
    requires var after := Execute(config, start, steps);
      e < |after.executors| && Holds(after.executors[e], record)
      && record.row < |after.rows| && !Owns(after.rows[record.row], record)
    ensures WasTaken(config, start, steps, e, record)
  {
    var n := |steps| - 1;
    if StepOf(steps[n], e) {
      OwnStepKeepsRow(config, Execute(config, start, steps[..n]), steps[n], e, record);
    }
    assert steps[..n + 1] == steps;
    assert TakenAway(config, start, steps, n, e, record);
  }

  /** A claim once lost is never owned again: attempts only grow, and no status leads back to REQUIRED. */
  ghost predicate Gone(row: Row, record: Record) {
    row.attempts >= record.attempt && !Owns(row, record)
  }

  lemma GoneStep(config: Config, s: System, step: Step, record: Record)
    requires Inv(config, s) && record.row < |s.rows| && Gone(s.rows[record.row], record)
    ensures var rows' := Perform(config, s, step).rows;
      record.row < |rows'| && Gone(rows'[record.row], record)
  {
    RowsOfStep(config, s, step);
    var before, after := s.rows[record.row], Perform(config, s, step).rows[record.row];
    assert Lawful(before, after);
    if after.status == before.status && after != before {
      SameStatusWrites(config, s, step, record.row);
    }
  }

  /** A write that leaves the status claims the row or lets it go. */
  lemma SameStatusWrites(config: Config, s: System, step: Step, r: nat)
    requires Inv(config, s) && r < |s.rows|
    requires var after := Perform(config, s, step).rows; r < |after| && after[r] != s.rows[r] && after[r].status == s.rows[r].status
    ensures var after := Perform(config, s, step).rows[r]; after.attempts == s.rows[r].attempts + 1 || after.lease.None?
  {
    assert forall u :: 0 <= u < |s.users| ==> UserOk(s.challenges, s.users[u]);
  }

  lemma {:induction false} GoneStays(config: Config, users: nat, executors: nat, steps: seq<Step>, k: nat, record: Record)
    requires k <= |steps|
    requires var s := Execute(config, Empty(users, executors), steps[..k]);
      record.row < |s.rows| && Gone(s.rows[record.row], record)
    ensures var s := Execute(config, Empty(users, executors), steps);
      record.row < |s.rows| && Gone(s.rows[record.row], record)
  {
    if k == |steps| {
      assert steps[..k] == steps;
    } else {
      var init := steps[..|steps| - 1];
      assert init[..k] == steps[..k];
      GoneStays(config, users, executors, init, k, record);
      Reachable(config, users, executors, init);
      GoneStep(config, Execute(config, Empty(users, executors), init), steps[|steps| - 1], record);
    }
  }

  lemma TakenIsGone(config: Config, users: nat, executors: nat, steps: seq<Step>, k: nat, e: nat, record: Record)
    requires TakenAway(config, Empty(users, executors), steps, k, e, record)
    ensures var after := Execute(config, Empty(users, executors), steps[..k + 1]);
      record.row < |after.rows| && Gone(after.rows[record.row], record)
  {
    var before := Execute(config, Empty(users, executors), steps[..k]);
    assert steps[..k + 1][..k] == steps[..k];
    Reachable(config, users, executors, steps[..k]);
    RowsOfStep(config, before, steps[k]);
    assert Lawful(before.rows[record.row], Perform(config, before, steps[k]).rows[record.row]);
  }

  /** The executor still owns what it holds exactly when nobody has taken it. */
  lemma OwnedExactly(config: Config, users: nat, executors: nat, steps: seq<Step>, e: nat, record: Record)
    requires var s := Execute(config, Empty(users, executors), steps);
      e < |s.executors| && Holds(s.executors[e], record)
    ensures var s := Execute(config, Empty(users, executors), steps);
      record.row < |s.rows|
      && (Owns(s.rows[record.row], record) <==> !WasTaken(config, Empty(users, executors), steps, e, record))
  {
    var s := Execute(config, Empty(users, executors), steps);
    if record.row >= |s.rows| || !Owns(s.rows[record.row], record) {
      LostWasTaken(config, users, executors, steps, e, record);
    } else if WasTaken(config, Empty(users, executors), steps, e, record) {
      var k :| 0 <= k < |steps| && TakenAway(config, Empty(users, executors), steps, k, e, record);
      TakenIsGone(config, users, executors, steps, k, e, record);
      GoneStays(config, users, executors, steps, k + 1, record);
    }
  }

  /** What the update after a successful dispatch does. */
  lemma CompletionMoves(config: Config, s: System, e: nat)
    requires e < |s.executors| && s.executors[e].Completing? && s.executors[e].record.row < |s.rows|
    ensures var r, s' := s.executors[e].record.row, Perform(config, s, Settle(e));
      && |s'.rows| == |s.rows| && |s'.executors| == |s.executors| && s'.executors[e].Scanning?
      && (s'.rows[r].status == s.rows[r].status <==> !Owns(s.rows[r], s.executors[e].record))
  {}

  /** After a successful dispatch the executor's update leaves the intervention where it is exactly when, between its
      claim and now, a step of somebody else has taken the row away; the executor goes on either way. */
  lemma DispatchLostExactly(config: Config, users: nat, executors: nat, steps: seq<Step>, e: nat)
    requires var s := Execute(config, Empty(users, executors), steps);
      e < |s.executors| && s.executors[e].Completing?
    ensures var s := Execute(config, Empty(users, executors), steps);
      var record, s' := s.executors[e].record, Perform(config, s, Settle(e));
      && record.row < |s.rows| == |s'.rows| && e < |s'.executors| && s'.executors[e].Scanning?
      && (s'.rows[record.row].status == s.rows[record.row].status <==>
            WasTaken(config, Empty(users, executors), steps, e, record))
  {
    var s := Execute(config, Empty(users, executors), steps);
    OwnedExactly(config, users, executors, steps, e, s.executors[e].record);
    CompletionMoves(config, s, e);
  }

  // ---------------------------------------------------------------- runs of one executor

  ghost predicate Working(config: Config) {
    config.batchSize >= 1 && config.maximumAttempts >= 1
  }

  /** One intervention of demo mode without expiry, still REQUIRED and with nobody working on it. */
  ghost predicate Open(config: Config, s: System, attempts: nat) {
    && Inv(config, s) && s.users == [Resting] && s.executors == [Waiting] && |s.rows| == 1
    && s.rows[0].demo && s.rows[0].status == Required && s.rows[0].attempts == attempts
    && s.rows[0].lease.None? && (s.rows[0].nextAttemptAt.None? || s.rows[0].nextAttemptAt.value <= s.clock)
  }

  /** The executor has claimed it. */
  ghost predicate Taken(config: Config, s: System, attempts: nat) {
    && Inv(config, s) && s.users == [Resting] && |s.rows| == 1
    && s.rows[0].lease.Some? && s.rows[0].attempts == attempts
    && s.executors == [Dispatching(s.clock, [], Record(0, attempts, s.rows[0].lease.value.id))]
    && Owns(s.rows[0], Record(0, attempts, s.rows[0].lease.value.id))
  }

  ghost predicate NoCrash(steps: seq<Step>) {
    forall i :: 0 <= i < |steps| ==> !steps[i].Crash?
  }

  lemma ScanAndClaim(config: Config, s: System, attempts: nat)
    requires Working(config) && attempts < config.maximumAttempts && Open(config, s, attempts)
    ensures Taken(config, Perform(config, Perform(config, s, Scan(0, [0])), Claim(0)), attempts + 1)
  {
    assert Selectable(config, s, [0]);
    var s1 := Perform(config, s, Scan(0, [0]));
    assert Snapshot(s.rows, [0]) == [Candidate(0, attempts)];
    assert s1.executors[0] == Scanning(s.clock, [Candidate(0, attempts)]);
    assert [Candidate(0, attempts)][1..] == [];
    StepKeeps(config, s, Scan(0, [0]));
    StepKeeps(config, s1, Claim(0));
    var s2 := Perform(config, s1, Claim(0));
    assert s2.executors == [s2.executors[0]];
  }

  /** A failed dispatch before the last attempt leaves the row open for the next one, once its delay has passed. */
  lemma FailAndWait(config: Config, s: System, attempts: nat) returns (delay: nat)
    requires attempts < config.maximumAttempts && Taken(config, s, attempts)
    ensures Open(config, Perform(config, Perform(config, Perform(config, Perform(config, s,
                   Dispatch(0, false)), Settle(0)), Claim(0)), Tick(delay)), attempts)
  {
    delay := Delay(config.retryBaseMs, attempts);
    var s1 := Perform(config, s, Dispatch(0, false));
    var s2 := Perform(config, s1, Settle(0));
    var s3 := Perform(config, s2, Claim(0));
    StepKeeps(config, s, Dispatch(0, false));
    StepKeeps(config, s1, Settle(0));
    StepKeeps(config, s2, Claim(0));
    StepKeeps(config, s3, Tick(delay));
    assert s1.executors == [Failing(s.clock, [], s.executors[0].record)];
    assert s2.executors == [Scanning(s.clock, [])];
    assert s3.executors == [Waiting];
  }

  lemma FirstOpen(config: Config) returns (steps: seq<Step>)
    ensures Open(config, Execute(config, Empty(1, 1), steps), 0) && NoCrash(steps)
  {
    var proposal := Propose(false, false, true, None);
    ExecuteSnoc(config, Empty(1, 1), [], proposal);
    steps := [] + [proposal];
    Reachable(config, 1, 1, steps);
    assert Empty(1, 1).executors == [Waiting] && Empty(1, 1).users == [Resting];
  }

  lemma NextOpen(config: Config, before: seq<Step>, attempts: nat) returns (steps: seq<Step>)
    requires attempts < config.maximumAttempts && NoCrash(before)
    requires Taken(config, Execute(config, Empty(1, 1), before), attempts)
    ensures Open(config, Execute(config, Empty(1, 1), steps), attempts) && NoCrash(steps)
  {
    var delay := FailAndWait(config, Execute(config, Empty(1, 1), before), attempts);
    steps := before + [Dispatch(0, false)] + [Settle(0)] + [Claim(0)] + [Tick(delay)];
    ExecuteSnoc(config, Empty(1, 1), before, Dispatch(0, false));
    ExecuteSnoc(config, Empty(1, 1), before + [Dispatch(0, false)], Settle(0));
    ExecuteSnoc(config, Empty(1, 1), before + [Dispatch(0, false)] + [Settle(0)], Claim(0));
    ExecuteSnoc(config, Empty(1, 1), before + [Dispatch(0, false)] + [Settle(0)] + [Claim(0)], Tick(delay));
  }

  lemma {:induction false} ReachOpen(config: Config, attempts: nat) returns (steps: seq<Step>)
    requires Working(config) && attempts < config.maximumAttempts
    ensures Open(config, Execute(config, Empty(1, 1), steps), attempts) && NoCrash(steps)
    decreases attempts, 1
  {
    if attempts == 0 {
      steps := FirstOpen(config);
    } else {
      steps := ReachTaken(config, attempts);
      steps := NextOpen(config, steps, attempts);
    }
  }

  lemma {:induction false} ReachTaken(config: Config, attempts: nat) returns (steps: seq<Step>)
    requires Working(config) && 1 <= attempts <= config.maximumAttempts
    ensures Taken(config, Execute(config, Empty(1, 1), steps), attempts) && NoCrash(steps)
    decreases attempts, 0
  {
    steps := ReachOpen(config, attempts - 1);
    ScanAndClaim(config, Execute(config, Empty(1, 1), steps), attempts - 1);
    ExecuteSnoc(config, Empty(1, 1), steps, Scan(0, [0]));
    steps := steps + [Scan(0, [0])];
    ExecuteSnoc(config, Empty(1, 1), steps, Claim(0));
    steps := steps + [Claim(0)];
  }

  /** With the check in force the last failure strands the row although nobody has crashed; without it, it fails. */
  lemma LastFailureStrands(config: Config) returns (steps: seq<Step>)
    requires Working(config)
    ensures var s := Execute(config, Empty(1, 1), steps);
      && NoCrash(steps) && |s.rows| == 1
      && (config.checked ==> Stranded(config, s, 0))
      && (!config.checked ==> s.rows[0].status == FailedStatus)
  {
    steps := ReachTaken(config, config.maximumAttempts);
    var taken := Execute(config, Empty(1, 1), steps);
    ExecuteSnoc(config, Empty(1, 1), steps, Dispatch(0, false));
    steps := steps + [Dispatch(0, false)];
    assert Execute(config, Empty(1, 1), steps).executors[0] == Failing(taken.clock, [], taken.executors[0].record);
    ExecuteSnoc(config, Empty(1, 1), steps, Settle(0));
    steps := steps + [Settle(0)];
  }

  /** At every attempt an action can be dispatched and counted although the intervention never goes into progress: a
      user acknowledges it while the executor is calling the provider. */
  lemma DispatchedButAcknowledged(config: Config, attempts: nat) returns (steps: seq<Step>)
    requires Working(config) && 1 <= attempts <= config.maximumAttempts
    ensures var s := Execute(config, Empty(1, 1), steps);
      && |s.rows| == 1 && s.rows[0].status == Acknowledged && s.rows[0].attempts == attempts
      && |s.executors| == 1 && s.executors[0].Completing?
      && Perform(config, s, Settle(0)).rows == s.rows && Perform(config, s, Settle(0)).executors[0].Scanning?
  {
    steps := ReachTaken(config, attempts);
    ExecuteSnoc(config, Empty(1, 1), steps, Dispatch(0, true));
    steps := steps + [Dispatch(0, true)];
    ExecuteSnoc(config, Empty(1, 1), steps, Read(0, 0, Acknowledge));
    steps := steps + [Read(0, 0, Acknowledge)];
    ExecuteSnoc(config, Empty(1, 1), steps, Write(0));
    steps := steps + [Write(0)];
  }
}

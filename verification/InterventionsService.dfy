/**
 The tables and services behind the intervention model, updating their rows one statement at a time: the user actions,
 challenge completion, the expiry job, and the executor's batch loop, which is proved to be a run of the model.
 */
module InterventionsService {
  import opened Wrappers
  import opened Leases
  import opened Interventions
  import Runs = InterventionRuns

  /** What has happened so far, with one executor and no user in between. */
  ghost predicate After(config: Config, start: System, steps: seq<Step>, s: System) {
    s == Execute(config, start, steps)
  }

  lemma AfterStep(config: Config, start: System, steps: seq<Step>, s: System, step: Step)
    requires After(config, start, steps, s)
    ensures After(config, start, steps + [step], Perform(config, s, step))
  {
    Runs.ExecuteSnoc(config, start, steps, step);
  }

  /** The guarded update for the first candidate. */
  lemma ClaimIs(config: Config, s: System, now: int, candidates: seq<Candidate>)
    requires s.executors == [Scanning(now, candidates)] && candidates != []
    ensures var c, lease := candidates[0], Lease(s.nextLease, s.clock + config.leaseMs);
      Perform(config, s, Claim(0)) ==
        if c.row >= |s.rows| || ClaimRow(s.rows[c.row], c.attempts, now, lease).None?
        then s.(executors := [Scanning(now, candidates[1..])])
        else s.(rows := s.rows[c.row := ClaimRow(s.rows[c.row], c.attempts, now, lease).value],
                executors := [Dispatching(now, candidates[1..], Record(c.row, c.attempts + 1, lease.id))],
                nextLease := s.nextLease + 1)
  {
    forall x ensures s.executors[0 := x] == [x] {}
  }

  lemma DispatchIs(config: Config, s: System, now: int, candidates: seq<Candidate>, record: Record, done: bool)
    requires s.executors == [Dispatching(now, candidates, record)]
    ensures Perform(config, s, Dispatch(0, done))
         == s.(executors := [if done then Completing(now, candidates, record) else Failing(now, candidates, record)])
  {
    forall x ensures s.executors[0 := x] == [x] {}
  }

  lemma SettleIs(config: Config, s: System, now: int, candidates: seq<Candidate>, record: Record, done: bool)
    requires s.executors == [if done then Completing(now, candidates, record) else Failing(now, candidates, record)]
    requires record.row < |s.rows|
    ensures var updated := if done then Some(CompleteRow(s.rows[record.row], record))
                           else FailRow(config, s.rows[record.row], record, s.clock);
      Perform(config, s, Settle(0)) ==
        if updated.None? then s.(executors := [Waiting])
        else s.(rows := s.rows[record.row := updated.value], executors := [Scanning(now, candidates)])
  {
    forall x ensures s.executors[0 := x] == [x] {}
  }

  /** A dispatch, the time it takes and the guarded update after it, for the only executor. */
  lemma SettledRun(config: Config, start: System, before: seq<Step>, s: System, now: int, rest: seq<Candidate>,
                   record: Record, done: bool, elapsed: nat)
    requires After(config, start, before, s)
    requires s.executors == [Dispatching(now, rest, record)] && record.row < |s.rows|
    ensures var updated := if done then Some(CompleteRow(s.rows[record.row], record))
                           else FailRow(config, s.rows[record.row], record, s.clock + elapsed);
      After(config, start, before + [Dispatch(0, done)] + [Tick(elapsed)] + [Settle(0)],
        if updated.None? then s.(clock := s.clock + elapsed, executors := [Waiting])
        else s.(clock := s.clock + elapsed, rows := s.rows[record.row := updated.value], executors := [Scanning(now, rest)]))
  {
    AfterStep(config, start, before, s, Dispatch(0, done));
    DispatchIs(config, s, now, rest, record, done);
    var executor := if done then Completing(now, rest, record) else Failing(now, rest, record);
    var dispatched := s.(executors := [executor]);
    AfterStep(config, start, before + [Dispatch(0, done)], dispatched, Tick(elapsed));
    var later := dispatched.(clock := s.clock + elapsed);
    AfterStep(config, start, before + [Dispatch(0, done)] + [Tick(elapsed)], later, Settle(0));
    SettleIs(config, later, now, rest, record, done);
  }

  class RiskTables {
    const config: Config
    var clock: int
    var rows: seq<Row>
    var challenges: seq<Challenge>
    var nextLease: nat

    constructor (config: Config)
      ensures this.config == config && As(Waiting) == System(0, [], [], [], [Waiting], 0)
    {
      this.config := config;
      clock, rows, challenges, nextLease := 0, [], [], 0;
    }

    /** The model with this process as its only executor and no user at work. */
    ghost function As(executor: Executor): System
      reads this
    {
      System(clock, rows, challenges, [], [executor], nextLease)
    }

    method UpdateInterventionStatus(i: nat, expected: Status, next: Status) returns (conflict: bool)
      requires i < |rows|
      modifies `rows
      ensures conflict == MoveRow(old(rows)[i], expected, next).None?
      ensures rows == if conflict then old(rows) else old(rows)[i := MoveRow(old(rows)[i], expected, next).value]
    {
      conflict := rows[i].status != expected;
      if !conflict {
        rows := rows[i := rows[i].(status := next)];
        if Terminal(next) {
          rows := rows[i := rows[i].(resolved := true, lease := None, nextAttemptAt := None)];
        }
      }
    }

    method CompleteVerificationChallenge(c: nat, passed: bool) returns (conflict: bool)
      requires c < |challenges|
      modifies `challenges
      ensures challenges == old(challenges)[c := CompleteChallenge(old(challenges)[c], passed, clock)]
      ensures conflict <==> challenges[c].status != (if passed then ChallengePassed else ChallengeFailed)
    {
      var wanted := if passed then ChallengePassed else ChallengeFailed;
      if challenges[c].status == ChallengePending && challenges[c].expiresAt > clock {
        challenges := challenges[c := challenges[c].(status := wanted)];
      }
      conflict := challenges[c].status != wanted;
    }

    method ExpireStaleRecords()
      modifies `rows, `challenges
      ensures As(Waiting) == Perform(config, old(As(Waiting)), Expire)
    {
      for i := 0 to |challenges|
        invariant |challenges| == |old(challenges)| && rows == old(rows)
        invariant forall j :: 0 <= j < |challenges| ==>
          challenges[j] == if j < i then ExpireChallenge(old(challenges)[j], clock) else old(challenges)[j]
      {
        if challenges[i].expiresAt <= clock && challenges[i].status == ChallengePending {
          challenges := challenges[i := challenges[i].(status := ChallengeExpired)];
        }
      }
      ghost var expired := challenges;
      for i := 0 to |rows|
        invariant |rows| == |old(rows)| && challenges == expired
        invariant forall j :: 0 <= j < |rows| ==> rows[j] == if j < i then ExpireRow(old(rows)[j], clock) else old(rows)[j]
      {
        var row := rows[i];
        if row.expiresAt.Some? && row.expiresAt.value <= clock && (row.status == Required || row.status == Acknowledged) {
          rows := rows[i := row.(status := Expired, resolved := true, lease := None, nextAttemptAt := None)];
        }
      }
      assert rows == Perform(config, old(As(Waiting)), Expire).rows;
      assert challenges == Perform(config, old(As(Waiting)), Expire).challenges;
    }
  }

  class InterventionActions {
    const risk: RiskTables

    constructor (risk: RiskTables)
      ensures this.risk == risk
    {
      this.risk := risk;
    }

    method AcknowledgeIntervention(i: nat) returns (ok: bool)
      requires i < |risk.rows|
      modifies risk`rows
      ensures risk.rows == WriteUser(old(risk.rows), ReadIntent(old(risk.rows), i, Acknowledge))
      ensures |risk.rows| == |old(risk.rows)| && (ok <==> risk.rows[i].status == Acknowledged)
    {
      var current := risk.rows[i];
      if current.status == Acknowledged {
        return true;
      }
      if Acknowledged !in Next(current.status) {
        return false;
      }
      var conflict := risk.UpdateInterventionStatus(i, current.status, Acknowledged);
      ok := !conflict;
    }

    method CancelIntervention(i: nat) returns (ok: bool)
      requires i < |risk.rows|
      modifies risk`rows
      ensures risk.rows == WriteUser(old(risk.rows), ReadIntent(old(risk.rows), i, Cancel))
      ensures |risk.rows| == |old(risk.rows)| && (ok <==> risk.rows[i].status == Cancelled)
    {
      var current := risk.rows[i];
      if current.status == Cancelled {
        return true;
      }
      if current.status == InProgress || Cancelled !in Next(current.status) {
        return false;
      }
      var conflict := risk.UpdateInterventionStatus(i, current.status, Cancelled);
      ok := !conflict;
    }

    method HoldAction(i: nat, held: bool) returns (ok: bool)
      requires i < |risk.rows|
      modifies risk`rows
      ensures risk.rows == if held then WriteUser(old(risk.rows), ReadIntent(old(risk.rows), i, Hold)) else old(risk.rows)
      ensures |risk.rows| == |old(risk.rows)| && (ok ==> risk.rows[i].status == InProgress && risk.rows[i].hold)
    {
      var current := risk.rows[i];
      if !current.hold || !current.reference {
        return false;
      }
      if current.status == InProgress {
        return true;
      }
      if InProgress !in Next(current.status) || !held {
        return false;
      }
      var conflict := risk.UpdateInterventionStatus(i, current.status, InProgress);
      ok := !conflict;
    }

    /** Satisfied only on a passed, unexpired challenge of this intervention. */
    method ReleaseAfterIndependentVerification(i: nat, c: nat, released: bool) returns (ok: bool)
      requires i < |risk.rows| && c < |risk.challenges|
      modifies risk`rows
      ensures risk.rows ==
        if released then WriteUser(old(risk.rows), ReadRelease(old(risk.rows), risk.challenges, i, c, risk.clock))
        else old(risk.rows)
      ensures |risk.rows| == |old(risk.rows)|
      ensures ok ==> risk.rows[i].status == Satisfied && risk.challenges[c] == Challenge(i, ChallengePassed, risk.challenges[c].expiresAt)
    {
      var current, challenge := risk.rows[i], risk.challenges[c];
      if !current.hold || !current.reference || current.status != InProgress || challenge.intervention != i
         || challenge.status != ChallengePassed || challenge.expiresAt <= risk.clock {
        return false;
      }
      if !released {
        return false;
      }
      var conflict := risk.UpdateInterventionStatus(i, InProgress, Satisfied);
      ok := !conflict;
    }
  }

  class EngineeringInterventionExecutor {
    const risk: RiskTables
    var running: bool

    constructor (risk: RiskTables)
      ensures this.risk == risk && !running
    {
      this.risk := risk;
      running := false;
    }

    /** One batch over the rows the query selected; `done` are the provider's answers and `elapsed` the time each takes.
        A refused update ends it early. */
    method ExecutePending(selected: seq<nat>, done: seq<bool>, elapsed: seq<nat>, ghost start: System, ghost before: seq<Step>)
      returns (completed: nat, ghost steps: seq<Step>)
      requires After(risk.config, start, before, risk.As(Waiting)) && Selectable(risk.config, risk.As(Waiting), selected)
      requires |done| == |elapsed| == |selected|
      modifies this, risk
      ensures running == old(running)
      ensures After(risk.config, start, steps, risk.As(Waiting))
      ensures completed <= |selected|
    {
      completed, steps := 0, before;
      if running {
        return;
      }
      running := true;
      var now := risk.clock;
      var candidates := Snapshot(risk.rows, selected);
      AfterStep(risk.config, start, steps, risk.As(Waiting), Scan(0, selected));
      steps := steps + [Scan(0, selected)];
      assert [Waiting][0 := Scanning(now, candidates)] == [Scanning(now, candidates)];
      var i := 0;
      var aborted := false;
      while i < |candidates| && !aborted
        invariant i <= |candidates| && completed <= i
        invariant After(risk.config, start, steps, risk.As(if aborted then Waiting else Scanning(now, candidates[i..])))
      {
        var ok;
        assert candidates[i..][1..] == candidates[i + 1..];
        ok, aborted, steps := ExecuteNext(now, candidates[i..], done[i], elapsed[i], start, steps);
        if ok {
          completed := completed + 1;
        }
        i := i + 1;
      }
      if !aborted {
        assert candidates[i..] == [];
        AfterStep(risk.config, start, steps, risk.As(Scanning(now, [])), Claim(0));
        assert [Scanning(now, [])][0 := Waiting] == [Waiting];
        steps := steps + [Claim(0)];
      }
      running := false;
    }

    /** The body of the loop: claim, dispatch, complete or fail. */
    method ExecuteNext(now: int, candidates: seq<Candidate>, done: bool, elapsed: nat, ghost start: System, ghost before: seq<Step>)
      returns (ok: bool, aborted: bool, ghost steps: seq<Step>)
      requires candidates != [] && After(risk.config, start, before, risk.As(Scanning(now, candidates)))
      modifies risk
      ensures After(risk.config, start, steps, risk.As(if aborted then Waiting else Scanning(now, candidates[1..])))
      ensures aborted ==> !ok
    {
      ghost var s := risk.As(Scanning(now, candidates));
      AfterStep(risk.config, start, before, s, Claim(0));
      ClaimIs(risk.config, s, now, candidates);
      steps := before + [Claim(0)];
      ok, aborted := false, false;
      var c := candidates[0];
      var lease := Lease(risk.nextLease, risk.clock + risk.config.leaseMs);
      if c.row >= |risk.rows| {
        return;
      }
      var row := risk.rows[c.row];
      if !row.demo || row.status != Required || row.attempts != c.attempts || !LeaseFree(row.lease, now) {
        return;
      }
      risk.rows := risk.rows[c.row := row.(attempts := row.attempts + 1, lease := Some(lease), nextAttemptAt := None)];
      risk.nextLease := risk.nextLease + 1;
      var record := Record(c.row, c.attempts + 1, lease.id);
      ok, aborted, steps := DispatchAndSettle(now, candidates[1..], record, done, elapsed, start, steps);
    }

    method DispatchAndSettle(now: int, rest: seq<Candidate>, record: Record, done: bool, elapsed: nat,
                             ghost start: System, ghost before: seq<Step>)
      returns (ok: bool, aborted: bool, ghost steps: seq<Step>)
      requires record.row < |risk.rows| && After(risk.config, start, before, risk.As(Dispatching(now, rest, record)))
      modifies risk`rows, risk`clock
      ensures After(risk.config, start, steps, risk.As(if aborted then Waiting else Scanning(now, rest)))
      ensures aborted ==> !ok
    {
      SettledRun(risk.config, start, before, risk.As(Dispatching(now, rest, record)), now, rest, record, done, elapsed);
      steps := before + [Dispatch(0, done)] + [Tick(elapsed)] + [Settle(0)];
      risk.clock := risk.clock + elapsed;
      var row := risk.rows[record.row];
      ok, aborted := done, false;
      if Owns(row, record) {
        if done {
          risk.rows := risk.rows[record.row := row.(status := InProgress, nextAttemptAt := None, lease := None)];
        } else {
          var updated := FailRow(risk.config, row, record, risk.clock);
          aborted := updated.None?;
          if updated.Some? {
            risk.rows := risk.rows[record.row := updated.value];
          }
        }
      }
    }
  }
}

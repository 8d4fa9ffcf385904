/**
 The outbox repository and the flush loop of the service, run by one process. Every flush is a run of the machine of
 interleaved workers; it counts what it delivers, never loses a lease and leaves none behind.
 */
module OutboxService {
  import opened Wrappers
  import opened Leases
  import opened Outbox
  import opened OutboxRuns
  import opened OutboxBackoff

  function DeliveredCount(rows: seq<Row>): nat {
    if rows == [] then 0
    else DeliveredCount(rows[..|rows| - 1]) + if rows[|rows| - 1].status == AlertDelivered then 1 else 0
  }

  lemma {:induction false} DeliveredUpdate(rows: seq<Row>, r: nat, row: Row)
    requires r < |rows| && rows[r].status != AlertDelivered
    ensures DeliveredCount(rows[r := row]) == DeliveredCount(rows) + if row.status == AlertDelivered then 1 else 0
  {
    var init := rows[..|rows| - 1];
    if r == |rows| - 1 {
      assert rows[r := row][..|rows| - 1] == init;
    } else {
      DeliveredUpdate(init, r, row);
      assert rows[r := row][..|rows| - 1] == init[r := row];
    }
  }

  /** What has happened since the outbox was empty, with this process as its only worker. */
  ghost predicate Runs(config: OutboxConfig, steps: seq<Step>, s: State) {
    s == Execute(config, Start(1), steps) && NoCrash(steps)
  }

  lemma RunsOn(config: OutboxConfig, steps: seq<Step>, s: State, step: Step)
    requires Runs(config, steps, s) && !step.Crash?
    ensures Runs(config, steps + [step], Perform(config, s, step))
  {
    ExecuteSnoc(config, Start(1), steps, step);
  }

  lemma RunsBegin(config: OutboxConfig, steps: seq<Step>, s: State, selected: seq<nat>)
    requires Runs(config, steps, s) && s.workers == [Idle] && Selectable(config, s, selected)
    ensures Runs(config, steps + [Begin(0, selected)],
                 s.(workers := [Claiming(s.clock, Snapshot(s.rows, selected), [])]))
  {
    RunsOn(config, steps, s, Begin(0, selected));
    assert [Idle][0 := Claiming(s.clock, Snapshot(s.rows, selected), [])] == [Claiming(s.clock, Snapshot(s.rows, selected), [])];
  }

  lemma RunsEnd(config: OutboxConfig, steps: seq<Step>, s: State, now: int, claimed: seq<Record>)
    requires Runs(config, steps, s) && s.workers == [Claiming(now, [], claimed)]
    ensures Runs(config, steps + [ClaimNext(0)], s.(workers := [Dispatching(claimed)]))
  {
    RunsOn(config, steps, s, ClaimNext(0));
    assert s.workers[0 := Dispatching(claimed)] == [Dispatching(claimed)];
  }

  /** What the guarded update for the first candidate does. */
  lemma RunsClaim(config: OutboxConfig, steps: seq<Step>, s: State, now: int, candidates: seq<Candidate>, claimed: seq<Record>)
    requires Runs(config, steps, s) && s.workers == [Claiming(now, candidates, claimed)] && candidates != []
    requires candidates[0].row < |s.rows| == |s.traces|
    ensures var c, lease := candidates[0], Lease(s.nextLease, now + config.leaseMs);
      var row := ClaimRow(s.rows[c.row], c.attempts, now, lease);
      Runs(config, steps + [ClaimNext(0)],
        if row.None? then s.(workers := [Claiming(now, candidates[1..], claimed)])
        else State(s.clock, s.rows[c.row := row.value],
                   s.traces[c.row := s.traces[c.row].(starts := s.traces[c.row].starts + [s.clock])],
                   [Claiming(now, candidates[1..], claimed + [Record(0, c.row, c.attempts + 1, lease)])],
                   s.nextLease + 1))
  {
    RunsOn(config, steps, s, ClaimNext(0));
    forall worker ensures s.workers[0 := worker] == [worker] {}
  }

  ghost predicate Matches(row: Row, c: Candidate, now: int) {
    row.status == AlertPending && row.attempts == c.attempts && LeaseFree(row.lease, now)
  }

  /** The update matched: the row is claimed and remembered. */
  lemma RunsMatched(config: OutboxConfig, steps: seq<Step>, s: State, now: int, candidates: seq<Candidate>, claimed: seq<Record>,
                    row: Row, lease: Lease)
    requires config.Valid() && Runs(config, steps, s) && s.workers == [Claiming(now, candidates, claimed)] && candidates != []
    requires candidates[0].row < |s.rows| == |s.traces| && Matches(s.rows[candidates[0].row], candidates[0], now)
    requires lease == Lease(s.nextLease, now + config.leaseMs)
    requires row == s.rows[candidates[0].row].(attempts := candidates[0].attempts + 1, lease := Some(lease), nextAttemptAt := None)
    ensures var c := candidates[0];
      Runs(config, steps + [ClaimNext(0)],
           State(s.clock, s.rows[c.row := row],
                 s.traces[c.row := s.traces[c.row].(starts := s.traces[c.row].starts + [s.clock])],
                 [Claiming(now, candidates[1..], claimed + [Record(0, c.row, c.attempts + 1, lease)])],
                 s.nextLease + 1))
      && DeliveredCount(s.rows[c.row := row]) == DeliveredCount(s.rows)
  {
    RunsClaim(config, steps, s, now, candidates, claimed);
    DeliveredUpdate(s.rows, candidates[0].row, row);
  }

  /** It did not: the candidate is skipped. */
  lemma RunsUnmatched(config: OutboxConfig, steps: seq<Step>, s: State, now: int, candidates: seq<Candidate>, claimed: seq<Record>)
    requires Runs(config, steps, s) && s.workers == [Claiming(now, candidates, claimed)] && candidates != []
    requires candidates[0].row < |s.rows| == |s.traces| && !Matches(s.rows[candidates[0].row], candidates[0], now)
    ensures Runs(config, steps + [ClaimNext(0)], s.(workers := [Claiming(now, candidates[1..], claimed)]))
  {
    RunsClaim(config, steps, s, now, candidates, claimed);
  }

  lemma CandidateExists(config: OutboxConfig, steps: seq<Step>, s: State)
    requires config.Valid() && Runs(config, steps, s)
    requires |s.workers| == 1 && s.workers[0].Claiming? && s.workers[0].candidates != []
    ensures s.workers[0].candidates[0].row < |s.rows| == |s.traces|
  {
    SoloRun(config, steps);
    assert s.workers[0].candidates[0] in s.workers[0].candidates;
  }

  /** Whatever the worker holds it owns: its marks always succeed. */
  lemma FirstOwned(config: OutboxConfig, steps: seq<Step>, s: State)
    requires config.Valid() && Runs(config, steps, s)
    requires |s.workers| == 1 && !s.workers[0].Idle? && !s.workers[0].Claiming? && s.workers[0].records != []
    ensures var record := s.workers[0].records[0];
      record.row < |s.rows| == |s.traces| && Owns(s.rows[record.row], record)
  {
    SoloRun(config, steps);
    assert s.workers[0].records[0] in Held(s.workers[0]);
  }

  /** The database answers markDelivered with an error. */
  lemma RunsError(config: OutboxConfig, steps: seq<Step>, s: State, records: seq<Record>)
    requires Runs(config, steps, s) && s.workers == [Marking(records)]
    ensures Runs(config, steps + [MarkError(0)], s.(workers := [Failing(records)]))
  {
    RunsOn(config, steps, s, MarkError(0));
    assert s.workers[0 := Failing(records)] == [Failing(records)];
  }

  /** What a mark does when the first record is owned. */
  lemma MarkOwned(config: OutboxConfig, s: State, worker: Worker)
    requires s.workers == [worker] && (worker.Marking? || worker.Failing?) && worker.records != []
    requires worker.records[0].row < |s.rows| && Owns(s.rows[worker.records[0].row], worker.records[0])
    ensures var record := worker.records[0];
      var row := s.rows[record.row];
      var marked := if worker.Marking? then DeliverRow(row, record) else FailRow(config, row, record, s.clock);
      && marked.Some? && row.status == AlertPending
      && (marked.value.status == AlertDelivered <==> worker.Marking?)
      && Perform(config, s, Mark(0))
         == State(s.clock, s.rows[record.row := marked.value], s.traces, [Dispatching(worker.records[1..])], s.nextLease)
  {}

  lemma NoLeaseWhenIdle(config: OutboxConfig, steps: seq<Step>, s: State)
    requires config.Valid() && Runs(config, steps, s) && s.workers == [Idle]
    ensures forall r :: 0 <= r < |s.rows| ==> s.rows[r].lease.None?
  {
    SoloRun(config, steps);
    forall r | 0 <= r < |s.rows| ensures s.rows[r].lease.None? {
      IdleHoldsNothing(r);
    }
  }

  class SecurityEventOutboxRepository {
    const config: OutboxConfig
    var rows: seq<Row>
    var clock: int
    var nextLease: nat
    ghost var traces: seq<Trace>

    constructor (config: OutboxConfig)
      ensures this.config == config && As(Idle) == Start(1)
    {
      this.config := config;
      rows, clock, nextLease, traces := [], 0, 0, [];
      new;
      assert [Idle] == seq(1, _ => Idle);
    }

    /** The machine with this process as its only worker. */
    ghost function As(worker: Worker): State
      reads this
    {
      State(clock, rows, traces, [worker], nextLease)
    }

    /** Everything the claiming query selected is claimed in a loop. */
    method ClaimDispatchable(selected: seq<nat>, ghost before: seq<Step>)
      returns (claimed: seq<Record>, ghost steps: seq<Step>)
      requires config.Valid() && Runs(config, before, As(Idle)) && Selectable(config, As(Idle), selected)
      modifies this
      ensures Runs(config, steps, As(Dispatching(claimed)))
      ensures clock == old(clock) && DeliveredCount(rows) == DeliveredCount(old(rows)) && |claimed| <= |selected|
    {
      var now := clock;
      var candidates := Snapshot(rows, selected);
      RunsBegin(config, before, As(Idle), selected);
      steps := before + [Begin(0, selected)];
      claimed := [];
      for i := 0 to |candidates|
        invariant clock == old(clock) && DeliveredCount(rows) == DeliveredCount(old(rows)) && |claimed| <= i
        invariant Runs(config, steps, As(Claiming(now, candidates[i..], claimed)))
      {
        assert candidates[i..][1..] == candidates[i + 1..];
        claimed, steps := Claim(steps, candidates[i..], now, claimed);
      }
      assert candidates[|candidates|..] == [];
      RunsEnd(config, steps, As(Claiming(now, [], claimed)), now, claimed);
      steps := steps + [ClaimNext(0)];
    }

    /** The guarded update for one candidate; it is kept when the update matched. */
    method Claim(ghost before: seq<Step>, candidates: seq<Candidate>, now: int, claimed: seq<Record>)
      returns (claimed': seq<Record>, ghost steps: seq<Step>)
      requires config.Valid() && candidates != []
      requires Runs(config, before, As(Claiming(now, candidates, claimed)))
      modifies this
      ensures Runs(config, steps, As(Claiming(now, candidates[1..], claimed')))
      ensures clock == old(clock) && DeliveredCount(rows) == DeliveredCount(old(rows)) && |claimed'| <= |claimed| + 1
    {
      ghost var s := As(Claiming(now, candidates, claimed));
      CandidateExists(config, before, s);
      steps := before + [ClaimNext(0)];
      var c := candidates[0];
      var row := rows[c.row];
      if row.status == AlertPending && row.attempts == c.attempts
         && (row.lease.None? || row.lease.value.expiresAt <= now) {
        var lease := Lease(nextLease, now + config.leaseMs);
        var updated := row.(attempts := row.attempts + 1, lease := Some(lease), nextAttemptAt := None);
        RunsMatched(config, before, s, now, candidates, claimed, updated, lease);
        rows := rows[c.row := updated];
        traces := traces[c.row := traces[c.row].(starts := traces[c.row].starts + [clock])];
        nextLease := nextLease + 1;
        claimed' := claimed + [Record(0, c.row, c.attempts + 1, lease)];
      } else {
        RunsUnmatched(config, before, s, now, candidates, claimed);
        claimed' := claimed;
      }
    }

    method MarkDelivered(record: Record) returns (lost: bool)
      requires record.row < |rows|
      modifies `rows
      ensures lost == DeliverRow(old(rows)[record.row], record).None?
      ensures rows == if lost then old(rows) else old(rows)[record.row := DeliverRow(old(rows)[record.row], record).value]
    {
      var row := rows[record.row];
      lost := !Owns(row, record);
      if !lost {
        rows := rows[record.row := row.(status := AlertDelivered, lease := None, nextAttemptAt := None)];
      }
    }

    method MarkFailed(record: Record) returns (lost: bool)
      requires record.row < |rows|
      modifies `rows
      ensures lost == FailRow(config, old(rows)[record.row], record, clock).None?
      ensures rows == if lost then old(rows) else old(rows)[record.row := FailRow(config, old(rows)[record.row], record, clock).value]
    {
      var row := rows[record.row];
      var exhausted := record.attempt >= config.maximumAttempts;
      var delay := Backoff(config, record.attempt);
      lost := !Owns(row, record);
      if !lost {
        rows := rows[record.row :=
          row.(status := if exhausted then AlertFailed else AlertPending, lease := None,
               nextAttemptAt := if exhausted then None else Some(clock + delay))];
      }
    }
  }

  class SecurityEventOutboxService {
    const repository: SecurityEventOutboxRepository
    var flushing: bool

    constructor (repository: SecurityEventOutboxRepository)
      ensures this.repository == repository && !flushing
    {
      this.repository := repository;
      flushing := false;
    }

    /** One flush over the rows the query selected. `published` says which publisher calls succeed, `errors` for which
        rows the database answers markDelivered with an error, and `elapsed` how long the process has been busy before
        each of them. */
    method Flush(selected: seq<nat>, published: seq<bool>, errors: seq<bool>, elapsed: seq<nat>, ghost before: seq<Step>)
      returns (delivered: nat, ghost steps: seq<Step>)
      requires repository.config.Valid() && Runs(repository.config, before, repository.As(Idle))
      requires Selectable(repository.config, repository.As(Idle), selected)
      requires |published| == |errors| == |elapsed| == repository.config.batchSize
      modifies this, repository
      ensures flushing == old(flushing)
      ensures old(flushing) ==> delivered == 0 && repository.As(Idle) == old(repository.As(Idle))
      ensures Runs(repository.config, steps, repository.As(Idle))
      ensures DeliveredCount(repository.rows) == DeliveredCount(old(repository.rows)) + delivered
      ensures forall r :: 0 <= r < |repository.rows| ==> repository.rows[r].lease.None?
    {
      delivered, steps := 0, before;
      if !flushing {
        flushing := true;
        var records;
        records, steps := repository.ClaimDispatchable(selected, steps);
        delivered, steps := DispatchAll(steps, records, published, errors, elapsed);
        flushing := false;
      }
      NoLeaseWhenIdle(repository.config, steps, repository.As(Idle));
    }

    /** The loop over the claimed records. */
    method DispatchAll(ghost before: seq<Step>, records: seq<Record>, published: seq<bool>, errors: seq<bool>,
                       elapsed: seq<nat>)
      returns (delivered: nat, ghost steps: seq<Step>)
      requires repository.config.Valid() && Runs(repository.config, before, repository.As(Dispatching(records)))
      requires |records| <= |published| == |errors| == |elapsed|
      modifies repository
      ensures Runs(repository.config, steps, repository.As(Idle))
      ensures DeliveredCount(repository.rows) == DeliveredCount(old(repository.rows)) + delivered
    {
      delivered, steps := 0, before;
      for i := 0 to |records|
        invariant Runs(repository.config, steps, repository.As(Dispatching(records[i..])))
        invariant DeliveredCount(repository.rows) == DeliveredCount(old(repository.rows)) + delivered
      {
        var ok;
        assert records[i..][1..] == records[i + 1..];
        ok, steps := Deliver(steps, records[i..], published[i], errors[i], elapsed[i]);
        if ok {
          delivered := delivered + 1;
        }
      }
      assert records[|records|..] == [];
      RunsOn(repository.config, steps, repository.As(Dispatching([])), Dispatch(0, false));
      steps := steps + [Dispatch(0, false)];
    }

    /** The body of that loop: publish the first record and mark it. A lost lease would end the flush. */
    method Deliver(ghost before: seq<Step>, records: seq<Record>, published: bool, error: bool, elapsed: nat)
      returns (delivered: bool, ghost steps: seq<Step>)
      requires repository.config.Valid() && records != []
      requires Runs(repository.config, before, repository.As(Dispatching(records)))
      modifies repository
      ensures Runs(repository.config, steps, repository.As(Dispatching(records[1..])))
      ensures DeliveredCount(repository.rows) == DeliveredCount(old(repository.rows)) + if delivered then 1 else 0
    {
      var ok;
      ok, steps := TryPublish(before, records, published, elapsed);
      if ok && error {
        RunsError(repository.config, steps, repository.As(Marking(records)), records);
        steps := steps + [MarkError(0)];
        ok := false;
      }
      delivered, steps := MarkFirst(steps, records, ok);
    }

    /** toSecurityEvent and the publisher; false when either throws. */
    method TryPublish(ghost before: seq<Step>, records: seq<Record>, published: bool, elapsed: nat)
      returns (ok: bool, ghost steps: seq<Step>)
      requires repository.config.Valid() && records != []
      requires Runs(repository.config, before, repository.As(Dispatching(records)))
      modifies repository
      ensures Runs(repository.config, steps, repository.As(if ok then Marking(records) else Failing(records)))
      ensures repository.rows == old(repository.rows)
    {
      RunsOn(repository.config, before, repository.As(Dispatching(records)), Tick(elapsed));
      repository.clock := repository.clock + elapsed;
      steps := before + [Tick(elapsed)];
      ghost var s := repository.As(Dispatching(records));
      FirstOwned(repository.config, steps, s);
      RunsOn(repository.config, steps, s, Dispatch(0, published));
      steps := steps + [Dispatch(0, published)];
      var record := records[0];
      if !repository.rows[record.row].wellFormed || record.lease.expiresAt <= repository.clock {
        ok := false;
      } else {
        repository.traces := repository.traces[record.row := Publish(repository.traces[record.row], record.attempt, published)];
        ok := published;
      }
      assert repository.As(if ok then Marking(records) else Failing(records))
          == Perform(repository.config, s, Dispatch(0, published));
    }

    method MarkFirst(ghost before: seq<Step>, records: seq<Record>, ok: bool)
      returns (delivered: bool, ghost steps: seq<Step>)
      requires repository.config.Valid() && records != []
      requires Runs(repository.config, before, repository.As(if ok then Marking(records) else Failing(records)))
      modifies repository
      ensures Runs(repository.config, steps, repository.As(Dispatching(records[1..])))
      ensures delivered == ok
      ensures DeliveredCount(repository.rows) == DeliveredCount(old(repository.rows)) + if delivered then 1 else 0
    {
      ghost var worker := if ok then Marking(records) else Failing(records);
      ghost var s := repository.As(worker);
      RunsOn(repository.config, before, s, Mark(0));
      steps := before + [Mark(0)];
      FirstOwned(repository.config, before, s);
      MarkOwned(repository.config, s, worker);
      var lost;
      if ok {
        lost := repository.MarkDelivered(records[0]);
      } else {
        lost := repository.MarkFailed(records[0]);
      }
      DeliveredUpdate(s.rows, records[0].row, repository.rows[records[0].row]);
      delivered := ok;
    }
  }
}

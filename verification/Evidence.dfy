/**
 The evidence table: recording is keyed by idempotency key, supersedes by revision, and keeps every row.
 A row is named by its idempotency key, which is unique in an organisation; the random row id carries no more.
 */
module EvidenceTable {
  import opened Wrappers
  import opened RiskEngine

  datatype Acceptance = Accepted | Superseded | Duplicate | Stale | Rejected

  /** One event as it is delivered. Its key is `evidence.id`; `details` stands for the compared columns the risk
      engine does not read. */
  datatype EvidenceInput = EvidenceInput(
    session: nat,
    evidence: Evidence,
    windowStartMs: int,
    windowEndMs: int,
    details: seq<string>,
    requested: Option<Acceptance>,
    supersedes: Option<string>)
  {
    function Request(): Acceptance {
      if requested.None? then Accepted else requested.value
    }
  }

  datatype EvidenceRow = EvidenceRow(
    session: nat,
    evidence: Evidence,
    windowStartMs: int,
    windowEndMs: int,
    details: seq<string>,
    status: Acceptance,
    supersedes: Option<string>)

  predicate WellFormed(input: EvidenceInput) {
    && input.evidence.eventSequence >= 0
    && input.evidence.windowSequence >= 0
    && input.evidence.revision >= 0
    && input.windowStartMs >= 0
    && input.windowEndMs >= input.windowStartMs
  }

  predicate IsEquivalent(existing: EvidenceRow, input: EvidenceInput) {
    && existing.session == input.session
    && existing.evidence == input.evidence
    && existing.windowStartMs == input.windowStartMs
    && existing.windowEndMs == input.windowEndMs
    && existing.details == input.details
    && (input.supersedes == None || existing.supersedes == input.supersedes)
    && existing.status == input.Request()
  }

  predicate SameSlot(r: EvidenceRow, input: EvidenceInput) {
    r.session == input.session && SameKey(r.evidence, input.evidence)
  }

  /** The position of the row with this key. */
  function FindKey(rows: seq<EvidenceRow>, key: string): (r: Option<nat>)
    ensures r.Some? ==> r.value < |rows| && rows[r.value].evidence.id == key
    ensures r.None? ==> forall row :: row in rows ==> row.evidence.id != key
  {
    if rows == [] then None
    else if rows[|rows| - 1].evidence.id == key then Some(|rows| - 1)
    else FindKey(rows[..|rows| - 1], key)
  }

  /** The accepted row of the input's session, window and type that comes first when ordered by revision and then
      event sequence, both descending. */
  function LatestAccepted(rows: seq<EvidenceRow>, input: EvidenceInput): (r: Option<nat>)
    ensures r.Some? ==> r.value < |rows| && rows[r.value].status == Accepted && SameSlot(rows[r.value], input)
    ensures r.Some? ==>
      (forall row :: row in rows && row.status == Accepted && SameSlot(row, input)
         ==> !Newer(row.evidence, rows[r.value].evidence))
    ensures r.None? ==> forall row :: row in rows && row.status == Accepted ==> !SameSlot(row, input)
  {
    if rows == [] then None
    else
      var best, last := LatestAccepted(rows[..|rows| - 1], input), rows[|rows| - 1];
      if last.status == Accepted && SameSlot(last, input)
         && (best.None? || Newer(last.evidence, rows[best.value].evidence))
      then Some(|rows| - 1) else best
  }

  /** The two unique indexes of the schema besides the key: one event sequence and one revision per window and
      type within a session. */
  predicate Clashes(row: EvidenceRow, rows: seq<EvidenceRow>) {
    exists r :: r in rows && r.session == row.session
      && (r.evidence.eventSequence == row.evidence.eventSequence
          || (SameKey(r.evidence, row.evidence) && r.evidence.revision == row.evidence.revision))
  }

  function NewRow(input: EvidenceInput, status: Acceptance, supersedes: Option<string>): EvidenceRow {
    EvidenceRow(input.session, input.evidence, input.windowStartMs, input.windowEndMs, input.details, status, supersedes)
  }

  datatype Recorded = Recorded(row: Result<EvidenceRow, string>, rows: seq<EvidenceRow>)

  const IDEMPOTENCY_CONFLICT := "IDEMPOTENCY_CONFLICT"
  const UNIQUE_VIOLATION := "P2002"

  /** One serializable transaction of recording; any failure leaves the table as it was. `indexed` says whether
      the table carries the two unique indexes of the schema. */
  function Record(rows: seq<EvidenceRow>, input: EvidenceInput, indexed: bool): Recorded {
    if !WellFormed(input) then Recorded(Err(IDEMPOTENCY_CONFLICT), rows)
    else
      var existing := FindKey(rows, input.evidence.id);
      if existing.Some? then
        if IsEquivalent(rows[existing.value], input) then Recorded(Ok(rows[existing.value]), rows)
        else Recorded(Err(IDEMPOTENCY_CONFLICT), rows)
      else
        var latest := if input.Request() == Accepted then LatestAccepted(rows, input) else None;
        if latest.Some? && input.evidence.revision > rows[latest.value].evidence.revision
           && input.supersedes.Some? && input.supersedes.value != rows[latest.value].evidence.id
        then Recorded(Err(IDEMPOTENCY_CONFLICT), rows)
        else
          var older := latest.Some? && input.evidence.revision < rows[latest.value].evidence.revision;
          var newer := latest.Some? && input.evidence.revision > rows[latest.value].evidence.revision;
          var row := NewRow(input,
            if older then Stale else input.Request(),
            if newer then Some(rows[latest.value].evidence.id) else input.supersedes);
          if indexed && Clashes(row, rows) then Recorded(Err(UNIQUE_VIOLATION), rows)
          else
            var updated := if newer then rows[latest.value := rows[latest.value].(status := Superseded)] else rows;
            Recorded(Ok(row), updated + [row])
  }

  class EvidenceRepository {
    var rows: seq<EvidenceRow>
    const indexed: bool

    constructor (indexed: bool)
      ensures rows == [] && this.indexed == indexed
    {
      this.indexed := indexed;
      rows := [];
    }

    method RecordWithClient(input: EvidenceInput) returns (result: Result<EvidenceRow, string>)
      modifies this
      ensures Recorded(result, rows) == Record(old(rows), input, indexed)
    {
      if !WellFormed(input) {
        return Err(IDEMPOTENCY_CONFLICT);
      }
      var existing := FindKey(rows, input.evidence.id);
      if existing.Some? {
        if !IsEquivalent(rows[existing.value], input) {
          return Err(IDEMPOTENCY_CONFLICT);
        }
        return Ok(rows[existing.value]);
      }
      var before := rows;
      var acceptanceStatus := input.Request();
      var supersedesEvidenceId := input.supersedes;
      if acceptanceStatus == Accepted {
        var latest := LatestAccepted(rows, input);
        if latest.Some? && input.evidence.revision < rows[latest.value].evidence.revision {
          acceptanceStatus := Stale;
        } else if latest.Some? && input.evidence.revision > rows[latest.value].evidence.revision {
          if supersedesEvidenceId.Some? && supersedesEvidenceId.value != rows[latest.value].evidence.id {
            return Err(IDEMPOTENCY_CONFLICT);
          }
          supersedesEvidenceId := Some(rows[latest.value].evidence.id);
          rows := rows[latest.value := rows[latest.value].(status := Superseded)];
        }
      }
      var row := NewRow(input, acceptanceStatus, supersedesEvidenceId);
      if indexed && Clashes(row, before) {
        rows := before;  // the insert fails and the transaction rolls back
        return Err(UNIQUE_VIOLATION);
      }
      rows := rows + [row];
      result := Ok(row);
    }
  }

  // ---------------------------------------------------------------- runs of deliveries

  ghost function Deliver(inputs: seq<EvidenceInput>, indexed: bool): seq<EvidenceRow> {
    if inputs == [] then []
    else Record(Deliver(inputs[..|inputs| - 1], indexed), inputs[|inputs| - 1], indexed).rows
  }

  /** The accepted evidence of a session, as the risk pipeline loads it. */
  ghost function AcceptedEvidence(rows: seq<EvidenceRow>, session: nat): seq<Evidence> {
    if rows == [] then []
    else
      var rest, last := AcceptedEvidence(rows[..|rows| - 1], session), rows[|rows| - 1];
      if last.session == session && last.status == Accepted then rest + [last.evidence] else rest
  }

  /** Everything ever delivered for a session. */
  ghost function DeliveredEvidence(inputs: seq<EvidenceInput>, session: nat): seq<Evidence> {
    if inputs == [] then []
    else
      var rest, last := DeliveredEvidence(inputs[..|inputs| - 1], session), inputs[|inputs| - 1];
      if last.session == session then rest + [last.evidence] else rest
  }

  lemma AcceptedMembers(rows: seq<EvidenceRow>, session: nat, e: Evidence)
    ensures e in AcceptedEvidence(rows, session) <==>
      exists r :: r in rows && r.session == session && r.status == Accepted && r.evidence == e
  {
    if rows != [] {
      AcceptedMembers(rows[..|rows| - 1], session, e);
      assert rows == rows[..|rows| - 1] + [rows[|rows| - 1]];
    }
  }

  lemma DeliveredMembers(inputs: seq<EvidenceInput>, session: nat, e: Evidence)
    ensures e in DeliveredEvidence(inputs, session) <==>
      exists i :: i in inputs && i.session == session && i.evidence == e
  {
    if inputs != [] {
      DeliveredMembers(inputs[..|inputs| - 1], session, e);
      assert inputs == inputs[..|inputs| - 1] + [inputs[|inputs| - 1]];
    }
  }

  ghost predicate SameRowSlot(a: EvidenceRow, b: EvidenceRow) {
    a.session == b.session && SameKey(a.evidence, b.evidence)
  }

  /** Every row that lost its acceptance is outranked by an accepted row of its window and type. */
  ghost predicate Outranked(rows: seq<EvidenceRow>) {
    forall r :: r in rows && (r.status == Superseded || r.status == Stale) ==> IsOutranked(r, rows)
  }

  ghost predicate Outranks(a: EvidenceRow, r: EvidenceRow) {
    a.status == Accepted && SameRowSlot(a, r) && a.evidence.revision > r.evidence.revision
  }

  ghost predicate IsOutranked(r: EvidenceRow, rows: seq<EvidenceRow>) {
    exists a :: a in rows && Outranks(a, r)
  }

  /** A plain delivery: well formed, meant to be accepted, naming no row to supersede. */
  ghost predicate Plain(input: EvidenceInput) {
    WellFormed(input) && input.Request() == Accepted && input.supersedes == None
  }

  /** Plain deliveries whose keys tell events apart. */
  ghost predicate Keyed(inputs: seq<EvidenceInput>) {
    && (forall i :: i in inputs ==> Plain(i))
    && forall i, j :: i in inputs && j in inputs ==> i == j || i.evidence.id != j.evidence.id
  }

  /** Two events that one of the unique indexes does not let into the table together. */
  ghost predicate Collide(i: EvidenceInput, j: EvidenceInput) {
    && i.session == j.session
    && (i.evidence.eventSequence == j.evidence.eventSequence
        || (SameKey(i.evidence, j.evidence) && i.evidence.revision == j.evidence.revision))
  }

  ghost predicate Refused(kept: seq<EvidenceInput>, i: EvidenceInput) {
    exists k :: k in kept && Collide(k, i)
  }

  /** What a further delivery adds to the events kept so far. */
  ghost function Keep(kept: seq<EvidenceInput>, last: EvidenceInput, indexed: bool): seq<EvidenceInput> {
    if last in kept || (indexed && Refused(kept, last)) then kept else kept + [last]
  }

  /** The deliveries that are kept: the first of each event, unless an index refuses it. */
  ghost function Kept(inputs: seq<EvidenceInput>, indexed: bool): seq<EvidenceInput> {
    if inputs == [] then [] else Keep(Kept(inputs[..|inputs| - 1], indexed), inputs[|inputs| - 1], indexed)
  }

  lemma {:induction false} KeptDelivered(inputs: seq<EvidenceInput>, indexed: bool, i: EvidenceInput)
    requires i in Kept(inputs, indexed)
    ensures i in inputs
  {
    var init, last := inputs[..|inputs| - 1], inputs[|inputs| - 1];
    if i != last {
      KeptDelivered(init, indexed, i);
      assert i in init;
    }
  }

  /** Without the indexes every event is kept. */
  lemma {:induction false} AllKept(inputs: seq<EvidenceInput>, i: EvidenceInput)
    requires i in inputs
    ensures i in Kept(inputs, false)
  {
    var init, last := inputs[..|inputs| - 1], inputs[|inputs| - 1];
    assert inputs == init + [last];
    if i != last {
      AllKept(init, i);
    }
  }

  /** With the indexes no two kept events collide, and whatever was not kept collides with one that was. */
  lemma {:induction false} KeptExactly(inputs: seq<EvidenceInput>)
    ensures forall i, j :: i in Kept(inputs, true) && j in Kept(inputs, true) && Collide(i, j) ==> i == j
    ensures forall i :: i in inputs ==> i in Kept(inputs, true) || Refused(Kept(inputs, true), i)
  {
    if inputs != [] {
      var init, last := inputs[..|inputs| - 1], inputs[|inputs| - 1];
      assert inputs == init + [last];
      KeptExactly(init);
      forall i | i in inputs ensures i in Kept(inputs, true) || Refused(Kept(inputs, true), i) {
        if i in init && i !in Kept(init, true) {
          var k :| k in Kept(init, true) && Collide(k, i);
          assert k in Kept(inputs, true);
        }
      }
    }
  }

  lemma {:induction false} FirstKept(inputs: seq<EvidenceInput>, indexed: bool)
    requires inputs != []
    ensures Kept(inputs, indexed) != [] && Kept(inputs, indexed)[0] == inputs[0]
  {
    if |inputs| > 1 {
      FirstKept(inputs[..|inputs| - 1], indexed);
    } else {
      assert inputs[..0] == [];
      assert Kept([], indexed) == [];
    }
  }

  lemma KeptKeyed(inputs: seq<EvidenceInput>, indexed: bool)
    requires Keyed(inputs)
    ensures Keyed(Kept(inputs, indexed))
  {
    forall i | i in Kept(inputs, indexed) ensures i in inputs {
      KeptDelivered(inputs, indexed, i);
    }
  }

  ghost predicate Carries(r: EvidenceRow, i: EvidenceInput) {
    r.session == i.session && r.evidence == i.evidence && r.windowStartMs == i.windowStartMs
    && r.windowEndMs == i.windowEndMs && r.details == i.details
  }

  ghost predicate HasSource(r: EvidenceRow, inputs: seq<EvidenceInput>) {
    exists i :: i in inputs && Carries(r, i)
  }

  ghost predicate HasRow(i: EvidenceInput, rows: seq<EvidenceRow>) {
    exists r :: r in rows && Carries(r, i)
  }

  /** The rows are the inputs, whatever their status. */
  ghost predicate Holds(rows: seq<EvidenceRow>, inputs: seq<EvidenceInput>) {
    && (forall r :: r in rows ==> r.status in {Accepted, Superseded, Stale})
    && (forall r {:trigger HasSource(r, inputs)} :: r in rows ==> HasSource(r, inputs))
    && (forall i {:trigger HasRow(i, rows)} :: i in inputs ==> HasRow(i, rows))
  }

  lemma SourceOf(rows: seq<EvidenceRow>, inputs: seq<EvidenceInput>, r: EvidenceRow) returns (i: EvidenceInput)
    requires Holds(rows, inputs) && r in rows
    ensures i in inputs && Carries(r, i)
  {
    assert HasSource(r, inputs);
    i :| i in inputs && Carries(r, i);
  }

  lemma RowOf(rows: seq<EvidenceRow>, inputs: seq<EvidenceInput>, i: EvidenceInput) returns (r: EvidenceRow)
    requires Holds(rows, inputs) && i in inputs
    ensures r in rows && Carries(r, i)
  {
    assert HasRow(i, rows);
    r :| r in rows && Carries(r, i);
  }

  lemma RecordKeepsRanks(rows: seq<EvidenceRow>, input: EvidenceInput, indexed: bool)
    requires Outranked(rows) && Plain(input)
    ensures Outranked(Record(rows, input, indexed).rows)
  {
    var rows' := Record(rows, input, indexed).rows;
    if rows' != rows {
      forall r | r in rows' && (r.status == Superseded || r.status == Stale) ensures IsOutranked(r, rows') {
        RankKept(rows, input, indexed, r);
      }
    }
  }

  lemma RankKept(rows: seq<EvidenceRow>, input: EvidenceInput, indexed: bool, r: EvidenceRow)
    requires Outranked(rows) && Plain(input)
    requires Record(rows, input, indexed).rows != rows
    requires r in Record(rows, input, indexed).rows && (r.status == Superseded || r.status == Stale)
    ensures IsOutranked(r, Record(rows, input, indexed).rows)
  {
    var rows' := Record(rows, input, indexed).rows;
    var latest := LatestAccepted(rows, input);
    var row := rows'[|rows|];
    assert row in rows';
    var k :| 0 <= k < |rows'| && rows'[k] == r;
    if k == |rows| {
      assert rows'[latest.value] == rows[latest.value] && rows'[latest.value] in rows';
    } else if rows[k] == r {
      assert r in rows;
      assert IsOutranked(r, rows);
      var a :| a in rows && Outranks(a, r);
      var j :| 0 <= j < |rows| && rows[j] == a;
      assert rows'[j] in rows';
      if rows'[j] != a {
        assert Outranks(row, r);
      }
    } else {
      assert Outranks(row, r);
    }
  }

  /** The table holds exactly the kept deliveries. */
  lemma {:induction false} DeliverKeeps(inputs: seq<EvidenceInput>, indexed: bool)
    requires Keyed(inputs)
    ensures Outranked(Deliver(inputs, indexed))
    ensures Holds(Deliver(inputs, indexed), Kept(inputs, indexed))
  {
    if inputs != [] {
      var init, last := inputs[..|inputs| - 1], inputs[|inputs| - 1];
      assert inputs == init + [last];
      DeliverKeeps(init, indexed);
      var rows, kept := Deliver(init, indexed), Kept(init, indexed);
      forall i | i in kept + [last] ensures i in inputs {
        if i in kept { KeptDelivered(init, indexed, i); }
      }
      RecordKeepsRanks(rows, last, indexed);
      RecordHolds(rows, kept, last, indexed);
    }
  }

  // ---------------------------------------------------------------- supersession links

  ghost predicate Supersedes(r: EvidenceRow, q: EvidenceRow) {
    r.supersedes == Some(q.evidence.id) && SameRowSlot(r, q) && r.evidence.revision > q.evidence.revision
  }

  /** Every link names a superseded row of a lower revision, and every superseded row is named by one. */
  ghost predicate Linked(rows: seq<EvidenceRow>) {
    && (forall r :: r in rows && r.supersedes.Some? ==> NamesSuperseded(r, rows))
    && forall q :: q in rows && q.status == Superseded ==> IsNamed(q, rows)
  }

  ghost predicate NamesSuperseded(r: EvidenceRow, rows: seq<EvidenceRow>) {
    exists q :: q in rows && q.status == Superseded && Supersedes(r, q)
  }

  ghost predicate IsNamed(q: EvidenceRow, rows: seq<EvidenceRow>) {
    exists r :: r in rows && Supersedes(r, q)
  }

  /** The table has one more row; the others keep all but their status, and superseded ones stay superseded. */
  ghost predicate Extends(rows: seq<EvidenceRow>, rows': seq<EvidenceRow>) {
    |rows'| == |rows| + 1 && forall k :: 0 <= k < |rows| ==> KeepsRow(rows[k], rows'[k])
  }

  ghost predicate KeepsRow(r: EvidenceRow, r': EvidenceRow) {
    r' == r.(status := r'.status) && (r.status == Superseded ==> r'.status == Superseded)
  }

  /** The new row names a superseded one if it names any, and it names every newly superseded one. */
  ghost predicate LastLinks(rows: seq<EvidenceRow>, rows': seq<EvidenceRow>)
    requires |rows'| == |rows| + 1
  {
    var last := rows'[|rows|];
    && last.status != Superseded
    && (last.supersedes.Some? ==> NamesSuperseded(last, rows'))
    && forall k :: 0 <= k < |rows| && rows'[k].status == Superseded && rows[k].status != Superseded ==>
         Supersedes(last, rows'[k])
  }

  lemma RecordExtends(rows: seq<EvidenceRow>, input: EvidenceInput, indexed: bool)
    requires Plain(input) && Record(rows, input, indexed).rows != rows
    ensures Extends(rows, Record(rows, input, indexed).rows) && LastLinks(rows, Record(rows, input, indexed).rows)
  {
    var latest := LatestAccepted(rows, input);
    var rows' := Record(rows, input, indexed).rows;
    if rows'[|rows|].supersedes.Some? {
      assert rows'[latest.value] in rows' && Supersedes(rows'[|rows|], rows'[latest.value]);
    }
  }

  lemma KeptIn(rows: seq<EvidenceRow>, rows': seq<EvidenceRow>, r: EvidenceRow) returns (r': EvidenceRow)
    requires Extends(rows, rows') && r in rows
    ensures r' in rows' && KeepsRow(r, r')
  {
    var k :| 0 <= k < |rows| && rows[k] == r;
    r' := rows'[k];
  }

  lemma LinkKept(rows: seq<EvidenceRow>, rows': seq<EvidenceRow>, k: nat)
    requires Linked(rows) && Extends(rows, rows') && LastLinks(rows, rows')
    requires k < |rows'| && rows'[k].supersedes.Some?
    ensures NamesSuperseded(rows'[k], rows')
  {
    if k < |rows| {
      assert rows[k] in rows && KeepsRow(rows[k], rows'[k]);
      var q :| q in rows && q.status == Superseded && Supersedes(rows[k], q);
      var q' := KeptIn(rows, rows', q);
      assert Supersedes(rows'[k], q');
    }
  }

  lemma NameKept(rows: seq<EvidenceRow>, rows': seq<EvidenceRow>, k: nat)
    requires Linked(rows) && Extends(rows, rows') && LastLinks(rows, rows')
    requires k < |rows'| && rows'[k].status == Superseded
    ensures IsNamed(rows'[k], rows')
  {
    if rows[k].status == Superseded {
      assert rows[k] in rows && KeepsRow(rows[k], rows'[k]);
      var r :| r in rows && Supersedes(r, rows[k]);
      var r' := KeptIn(rows, rows', r);
      assert Supersedes(r', rows'[k]);
    } else {
      assert rows'[|rows|] in rows';
    }
  }

  lemma ExtendLinks(rows: seq<EvidenceRow>, rows': seq<EvidenceRow>)
    requires Linked(rows) && Extends(rows, rows') && LastLinks(rows, rows')
    ensures Linked(rows')
  {
    forall r | r in rows' && r.supersedes.Some? ensures NamesSuperseded(r, rows') {
      var k :| 0 <= k < |rows'| && rows'[k] == r;
      LinkKept(rows, rows', k);
    }
    forall q | q in rows' && q.status == Superseded ensures IsNamed(q, rows') {
      var k :| 0 <= k < |rows'| && rows'[k] == q;
      NameKept(rows, rows', k);
    }
  }

  /** Along every run of plain deliveries the links and the superseded rows correspond. */
  lemma {:induction false} DeliverLinks(inputs: seq<EvidenceInput>, indexed: bool)
    requires forall i :: i in inputs ==> Plain(i)
    ensures Linked(Deliver(inputs, indexed))
  {
    if inputs != [] {
      var init, last := inputs[..|inputs| - 1], inputs[|inputs| - 1];
      assert inputs == init + [last];
      DeliverLinks(init, indexed);
      if Deliver(inputs, indexed) != Deliver(init, indexed) {
        RecordExtends(Deliver(init, indexed), last, indexed);
        ExtendLinks(Deliver(init, indexed), Deliver(inputs, indexed));
      }
    }
  }

  lemma RecordHolds(rows: seq<EvidenceRow>, kept: seq<EvidenceInput>, last: EvidenceInput, indexed: bool)
    requires Keyed(kept + [last]) && Holds(rows, kept)
    ensures Holds(Record(rows, last, indexed).rows, Keep(kept, last, indexed))
  {
    var rows' := Record(rows, last, indexed).rows;
    assert last in kept + [last];
    RecordedExactly(rows, kept, last, indexed);
    if rows' != rows {
      forall i | i in kept + [last] ensures HasRow(i, rows') {
        RecordedRow(rows, kept, last, indexed, i);
      }
      forall r | r in rows' ensures HasSource(r, kept + [last]) && r.status in {Accepted, Superseded, Stale} {
        RecordedSource(rows, kept, last, indexed, r);
      }
    }
  }

  /** A plain delivery adds a row exactly when it is new and no kept event collides with it; a refusal is a
      violation of a unique index. */
  lemma RecordedExactly(rows: seq<EvidenceRow>, kept: seq<EvidenceInput>, last: EvidenceInput, indexed: bool)
    requires Keyed(kept + [last]) && Plain(last) && Holds(rows, kept)
    ensures Record(rows, last, indexed).rows != rows <==> Keep(kept, last, indexed) != kept
    ensures last !in kept && Keep(kept, last, indexed) == kept ==>
      Record(rows, last, indexed).row == Err(UNIQUE_VIOLATION)
  {
    var existing := FindKey(rows, last.evidence.id);
    assert last in kept + [last];
    if last in kept {
      var r := RowOf(rows, kept, last);
    } else {
      forall j | j in kept ensures j.evidence.id != last.evidence.id {
        assert j in kept + [last];
      }
      if existing.Some? {
        var j := SourceOf(rows, kept, rows[existing.value]);
      }
      ClashExactly(rows, kept, last);
      var rows' := Record(rows, last, indexed).rows;
      assert rows' == rows || |rows'| == |rows| + 1;
      assert kept + [last] != kept;
    }
  }

  lemma ClashExactly(rows: seq<EvidenceRow>, kept: seq<EvidenceInput>, last: EvidenceInput)
    requires Holds(rows, kept)
    ensures forall status, supersedes {:trigger NewRow(last, status, supersedes)} ::
      Clashes(NewRow(last, status, supersedes), rows) <==> Refused(kept, last)
  {
    if Refused(kept, last) {
      var k :| k in kept && Collide(k, last);
      var r := RowOf(rows, kept, k);
    }
    forall r | r in rows ensures exists k :: k in kept && Carries(r, k) {
      var k := SourceOf(rows, kept, r);
    }
  }

  lemma RecordedRow(rows: seq<EvidenceRow>, kept: seq<EvidenceInput>, last: EvidenceInput, indexed: bool, i: EvidenceInput)
    requires Holds(rows, kept) && Plain(last) && i in kept + [last]
    requires Record(rows, last, indexed).rows != rows
    ensures HasRow(i, Record(rows, last, indexed).rows)
  {
    var rows' := Record(rows, last, indexed).rows;
    if i in kept {
      var r := RowOf(rows, kept, i);
      var k :| 0 <= k < |rows| && rows[k] == r;
      assert Carries(rows'[k], i) && rows'[k] in rows';
    } else {
      assert Carries(rows'[|rows'| - 1], i) && rows'[|rows'| - 1] in rows';
    }
  }

  lemma RecordedSource(rows: seq<EvidenceRow>, kept: seq<EvidenceInput>, last: EvidenceInput, indexed: bool, r: EvidenceRow)
    requires Holds(rows, kept) && Plain(last) && r in Record(rows, last, indexed).rows
    ensures HasSource(r, kept + [last]) && r.status in {Accepted, Superseded, Stale}
  {
    RecordedFrom(rows, last, indexed, r);
    if q :| q in rows && SameContent(q, r) {
      var i := SourceOf(rows, kept, q);
      assert i in kept + [last] && Carries(r, i);
    } else {
      assert last in kept + [last];
    }
  }

  ghost predicate SameContent(q: EvidenceRow, r: EvidenceRow) {
    q.session == r.session && q.evidence == r.evidence && q.windowStartMs == r.windowStartMs
    && q.windowEndMs == r.windowEndMs && q.details == r.details
  }

  lemma RecordedFrom(rows: seq<EvidenceRow>, input: EvidenceInput, indexed: bool, r: EvidenceRow)
    requires r in Record(rows, input, indexed).rows
    ensures Carries(r, input) || exists q :: q in rows && SameContent(q, r)
  {
    if r !in rows && !Carries(r, input) {
      var latest := LatestAccepted(rows, input);
      assert rows[latest.value] in rows && SameContent(rows[latest.value], r);
    }
  }

  lemma EvaluateBySelection(a: seq<Evidence>, b: seq<Evidence>, policy: Policy)
    requires Select(a) == Select(b)
    ensures Evaluate(a, policy) == Evaluate(b, policy)
  {
    SelectEmpty(a);
    SelectEmpty(b);
  }

  lemma NewestIsAccepted(kept: seq<EvidenceInput>, rows: seq<EvidenceRow>, session: nat, e: Evidence)
    requires Outranked(rows) && Holds(rows, kept)
    requires Newest(e, DeliveredEvidence(kept, session))
    ensures e in AcceptedEvidence(rows, session)
  {
    DeliveredMembers(kept, session, e);
    AcceptedMembers(rows, session, e);
    var i :| i in kept && i.session == session && i.evidence == e;
    var r := RowOf(rows, kept, i);
    if r.status != Accepted {
      var a :| a in rows && Outranks(a, r);
      var j := SourceOf(rows, kept, a);
      DeliveredMembers(kept, session, j.evidence);
      assert Newer(a.evidence, e);
    }
  }

  lemma AcceptedWasDelivered(kept: seq<EvidenceInput>, rows: seq<EvidenceRow>, session: nat, e: Evidence)
    requires Holds(rows, kept) && e in AcceptedEvidence(rows, session)
    ensures e in DeliveredEvidence(kept, session)
  {
    AcceptedMembers(rows, session, e);
    DeliveredMembers(kept, session, e);
    var r :| r in rows && r.session == session && r.status == Accepted && r.evidence == e;
    var i := SourceOf(rows, kept, r);
  }

  ghost function VerdictOf(inputs: seq<EvidenceInput>, indexed: bool, session: nat, policy: Policy): Result<Verdict, string> {
    Evaluate(AcceptedEvidence(Deliver(inputs, indexed), session), policy)
  }

  /** The verdict is that of the deliveries not refused. With the indexes this holds whatever was delivered; without
      them it takes that no two events tie for the newest of a window and type. */
  lemma VerdictSeesKept(inputs: seq<EvidenceInput>, indexed: bool, session: nat, policy: Policy)
    requires Keyed(inputs)
    requires indexed || UniqueNewest(DeliveredEvidence(inputs, session))
    ensures VerdictOf(inputs, indexed, session, policy) == Evaluate(DeliveredEvidence(Kept(inputs, indexed), session), policy)
  {
    SelectionSeesKept(inputs, indexed, session);
    EvaluateBySelection(AcceptedEvidence(Deliver(inputs, indexed), session),
                        DeliveredEvidence(Kept(inputs, indexed), session), policy);
  }

  lemma SelectionSeesKept(inputs: seq<EvidenceInput>, indexed: bool, session: nat)
    requires Keyed(inputs)
    requires indexed || UniqueNewest(DeliveredEvidence(inputs, session))
    ensures Select(AcceptedEvidence(Deliver(inputs, indexed), session))
         == Select(DeliveredEvidence(Kept(inputs, indexed), session))
  {
    var rows, kept := Deliver(inputs, indexed), Kept(inputs, indexed);
    var accepted, delivered := AcceptedEvidence(rows, session), DeliveredEvidence(kept, session);
    DeliverKeeps(inputs, indexed);
    KeptUniqueNewest(inputs, indexed, session);
    forall e | e in accepted ensures e in delivered {
      AcceptedWasDelivered(kept, rows, session, e);
    }
    forall e | Newest(e, delivered) ensures e in accepted {
      NewestIsAccepted(kept, rows, session, e);
    }
    SelectOrderIndependent(accepted, delivered);
  }

  lemma KeptUniqueNewest(inputs: seq<EvidenceInput>, indexed: bool, session: nat)
    requires indexed || UniqueNewest(DeliveredEvidence(inputs, session))
    ensures UniqueNewest(DeliveredEvidence(Kept(inputs, indexed), session))
  {
    var delivered := DeliveredEvidence(Kept(inputs, indexed), session);
    if indexed {
      forall x, y | Newest(x, delivered) && Newest(y, delivered) && SameKey(x, y) ensures x == y {
        DeliveredMembers(Kept(inputs, true), session, x);
        DeliveredMembers(Kept(inputs, true), session, y);
        KeptExactly(inputs);
        var i :| i in Kept(inputs, true) && i.session == session && i.evidence == x;
        var j :| j in Kept(inputs, true) && j.session == session && j.evidence == y;
        assert Collide(i, j);
      }
    } else {
      forall e ensures e in delivered <==> e in DeliveredEvidence(inputs, session) {
        UnindexedDelivered(inputs, session, e);
      }
    }
  }

  lemma UnindexedDelivered(inputs: seq<EvidenceInput>, session: nat, e: Evidence)
    ensures e in DeliveredEvidence(Kept(inputs, false), session) <==> e in DeliveredEvidence(inputs, session)
  {
    DeliveredMembers(inputs, session, e);
    DeliveredMembers(Kept(inputs, false), session, e);
    if i :| i in inputs && i.session == session && i.evidence == e {
      AllKept(inputs, i);
    }
    if i :| i in Kept(inputs, false) && i.session == session && i.evidence == e {
      KeptDelivered(inputs, false, i);
    }
  }

  // ---------------------------------------------------------------- when the order makes no difference

  /** Two events that cannot both count: they collide, or without the indexes they tie. */
  ghost predicate Contend(i: EvidenceInput, j: EvidenceInput, indexed: bool) {
    if indexed then Collide(i, j)
    else i.session == j.session && SameKey(i.evidence, j.evidence)
         && !Newer(i.evidence, j.evidence) && !Newer(j.evidence, i.evidence)
  }

  /** No newest event of the session's windows and types has to contend with another event; older ones may. */
  ghost predicate Undisputed(inputs: seq<EvidenceInput>, indexed: bool, session: nat) {
    forall i, j :: Leads(i, inputs, session) && j in inputs && Contend(i, j, indexed) ==> i == j
  }

  ghost predicate Leads(i: EvidenceInput, inputs: seq<EvidenceInput>, session: nat) {
    i in inputs && i.session == session && Newest(i.evidence, DeliveredEvidence(inputs, session))
  }

  ghost predicate SameEvents(a: seq<EvidenceInput>, b: seq<EvidenceInput>) {
    forall i :: i in a <==> i in b
  }

  /** Every delivery sequence of the same events, in whatever order and with whatever repeats, leaves one verdict. */
  ghost predicate OrderIndependent(inputs: seq<EvidenceInput>, indexed: bool, session: nat, policy: Policy) {
    forall a, b :: SameEvents(a, inputs) && SameEvents(b, inputs) ==>
      VerdictOf(a, indexed, session, policy) == VerdictOf(b, indexed, session, policy)
  }

  lemma UndisputedNewest(inputs: seq<EvidenceInput>, indexed: bool, session: nat)
    requires Undisputed(inputs, indexed, session)
    ensures UniqueNewest(DeliveredEvidence(inputs, session))
  {
    var delivered := DeliveredEvidence(inputs, session);
    forall x, y | Newest(x, delivered) && Newest(y, delivered) && SameKey(x, y) ensures x == y {
      DeliveredMembers(inputs, session, x);
      DeliveredMembers(inputs, session, y);
      var i :| i in inputs && i.session == session && i.evidence == x;
      var j :| j in inputs && j.session == session && j.evidence == y;
      assert Leads(i, inputs, session) && Contend(i, j, indexed);
    }
  }

  lemma LeaderKept(inputs: seq<EvidenceInput>, indexed: bool, session: nat, i: EvidenceInput)
    requires Undisputed(inputs, indexed, session) && Leads(i, inputs, session)
    ensures i in Kept(inputs, indexed)
  {
    if !indexed {
      AllKept(inputs, i);
    } else {
      KeptExactly(inputs);
      if i !in Kept(inputs, true) {
        var k :| k in Kept(inputs, true) && Collide(k, i);
        KeptDelivered(inputs, true, k);
        assert Contend(i, k, true);
      }
    }
  }

  /** Unless a newest event is contended, the verdict over the rows still accepted is the verdict over everything ever
      delivered, refused or not. */
  lemma VerdictSeesEverything(inputs: seq<EvidenceInput>, indexed: bool, session: nat, policy: Policy)
    requires Keyed(inputs) && Undisputed(inputs, indexed, session)
    ensures VerdictOf(inputs, indexed, session, policy) == Evaluate(DeliveredEvidence(inputs, session), policy)
  {
    var kept := Kept(inputs, indexed);
    var part, delivered := DeliveredEvidence(kept, session), DeliveredEvidence(inputs, session);
    UndisputedNewest(inputs, indexed, session);
    VerdictSeesKept(inputs, indexed, session, policy);
    forall e | e in part ensures e in delivered {
      DeliveredMembers(kept, session, e);
      DeliveredMembers(inputs, session, e);
      var i :| i in kept && i.session == session && i.evidence == e;
      KeptDelivered(inputs, indexed, i);
    }
    forall e | Newest(e, delivered) ensures e in part {
      DeliveredMembers(kept, session, e);
      DeliveredMembers(inputs, session, e);
      var i :| i in inputs && i.session == session && i.evidence == e;
      LeaderKept(inputs, indexed, session, i);
    }
    SelectOrderIndependent(part, delivered);
    EvaluateBySelection(part, delivered, policy);
  }

  lemma SameDelivered(a: seq<EvidenceInput>, b: seq<EvidenceInput>, session: nat)
    requires SameEvents(a, b)
    ensures forall e :: e in DeliveredEvidence(a, session) <==> e in DeliveredEvidence(b, session)
    ensures forall e :: Newest(e, DeliveredEvidence(a, session)) <==> Newest(e, DeliveredEvidence(b, session))
  {
    forall e ensures e in DeliveredEvidence(a, session) <==> e in DeliveredEvidence(b, session) {
      DeliveredMembers(a, session, e);
      DeliveredMembers(b, session, e);
    }
  }

  lemma DeliveryOrderIndependent(a: seq<EvidenceInput>, b: seq<EvidenceInput>, indexed: bool, session: nat, policy: Policy)
    requires Keyed(a) && Undisputed(a, indexed, session) && SameEvents(a, b)
    ensures VerdictOf(a, indexed, session, policy) == VerdictOf(b, indexed, session, policy)
  {
    SameDelivered(a, b, session);
    assert Undisputed(b, indexed, session) by {
      forall i, j | Leads(i, b, session) && j in b && Contend(i, j, indexed) ensures i == j {
        assert Leads(i, a, session);
      }
    }
    VerdictSeesEverything(a, indexed, session, policy);
    VerdictSeesEverything(b, indexed, session, policy);
    var x, y := DeliveredEvidence(a, session), DeliveredEvidence(b, session);
    UndisputedNewest(b, indexed, session);
    SelectOrderIndependent(x, y);
    EvaluateBySelection(x, y, policy);
  }

  lemma {:induction false} FirstRow(inputs: seq<EvidenceInput>, indexed: bool)
    requires inputs != [] && forall i :: i in inputs ==> Plain(i)
    ensures Deliver(inputs, indexed) != [] && Carries(Deliver(inputs, indexed)[0], inputs[0])
  {
    var init, last := inputs[..|inputs| - 1], inputs[|inputs| - 1];
    assert inputs == init + [last];
    assert last in inputs;
    if init == [] {
      assert Deliver(init, indexed) == [];
      assert FindKey([], last.evidence.id) == None && LatestAccepted([], last) == None;
    } else {
      FirstRow(init, indexed);
      FirstRowKept(Deliver(init, indexed), last, indexed);
    }
  }

  lemma FirstRowKept(rows: seq<EvidenceRow>, input: EvidenceInput, indexed: bool)
    requires rows != []
    ensures var rows' := Record(rows, input, indexed).rows;
      rows' != [] && rows'[0] == rows[0].(status := rows'[0].status)
  {}

  lemma {:induction false} FirstOfAccepted(rows: seq<EvidenceRow>, session: nat)
    requires rows != [] && rows[0].session == session && rows[0].status == Accepted
    ensures AcceptedEvidence(rows, session) != [] && AcceptedEvidence(rows, session)[0] == rows[0].evidence
  {
    if |rows| > 1 {
      FirstOfAccepted(rows[..|rows| - 1], session);
    } else {
      assert AcceptedEvidence(rows[..0], session) == [];
    }
  }

  lemma FirstAccepted(inputs: seq<EvidenceInput>, session: nat)
    requires inputs != [] && Keyed(inputs) && Leads(inputs[0], inputs, session)
    ensures var accepted := AcceptedEvidence(Deliver(inputs, false), session);
      accepted != [] && accepted[0] == inputs[0].evidence
  {
    var rows, kept := Deliver(inputs, false), Kept(inputs, false);
    FirstRow(inputs, false);
    DeliverKeeps(inputs, false);
    assert rows[0] in rows;
    if rows[0].status != Accepted {
      var a :| a in rows && Outranks(a, rows[0]);
      var j := SourceOf(rows, kept, a);
      KeptDelivered(inputs, false, j);
      DeliveredMembers(inputs, session, j.evidence);
      assert Newer(j.evidence, inputs[0].evidence);
    }
    FirstOfAccepted(rows, session);
  }

  /** A newest event delivered first stays selected. */
  lemma FirstLeads(inputs: seq<EvidenceInput>, indexed: bool, session: nat)
    requires inputs != [] && Keyed(inputs) && Leads(inputs[0], inputs, session)
    ensures inputs[0].evidence in Select(AcceptedEvidence(Deliver(inputs, indexed), session))
  {
    var i, rows, kept := inputs[0], Deliver(inputs, indexed), Kept(inputs, indexed);
    var accepted, part := AcceptedEvidence(rows, session), DeliveredEvidence(kept, session);
    DeliverKeeps(inputs, indexed);
    FirstKept(inputs, indexed);
    forall e | e in part ensures e in DeliveredEvidence(inputs, session) {
      DeliveredMembers(kept, session, e);
      DeliveredMembers(inputs, session, e);
      var k :| k in kept && k.session == session && k.evidence == e;
      KeptDelivered(inputs, indexed, k);
    }
    DeliveredMembers(kept, session, i.evidence);
    assert Newest(i.evidence, part);
    if indexed {
      SelectionSeesKept(inputs, true, session);
      KeptUniqueNewest(inputs, true, session);
      SelectExact(part, i.evidence);
    } else {
      NewestIsAccepted(kept, rows, session, i.evidence);
      FirstAccepted(inputs, session);
      forall e | e in accepted ensures e in part {
        AcceptedWasDelivered(kept, rows, session, e);
      }
      FirstNewestSelected(accepted);
    }
  }

  lemma SelectedIds(evidence: seq<Evidence>, policy: Policy, id: string)
    ensures (exists e :: e in Select(evidence) && e.id == id) <==>
      Evaluate(evidence, policy).Ok? && id in Evaluate(evidence, policy).value.evidenceEventIds
  {
    SelectEmpty(evidence);
    if evidence != [] {
      var selected, ids := Select(evidence), Evaluate(evidence, policy).value.evidenceEventIds;
      if e :| e in selected && e.id == id {
        var k :| 0 <= k < |selected| && selected[k] == e;
        assert ids[k] == id;
      }
      if id in ids {
        var k :| 0 <= k < |ids| && ids[k] == id;
        assert selected[k] in selected;
      }
    }
  }

  lemma SelectedWasKept(inputs: seq<EvidenceInput>, indexed: bool, session: nat, e: Evidence) returns (k: EvidenceInput)
    requires Keyed(inputs) && e in Select(AcceptedEvidence(Deliver(inputs, indexed), session))
    ensures k in Kept(inputs, indexed) && k in inputs && k.evidence == e
  {
    var rows, kept := Deliver(inputs, indexed), Kept(inputs, indexed);
    DeliverKeeps(inputs, indexed);
    SelectSubset(AcceptedEvidence(rows, session), e);
    AcceptedWasDelivered(kept, rows, session, e);
    DeliveredMembers(kept, session, e);
    k :| k in kept && k.session == session && k.evidence == e;
    KeptDelivered(inputs, indexed, k);
  }

  /** Whichever of two contenders comes first keeps the other one out. */
  lemma ContenderLoses(inputs: seq<EvidenceInput>, indexed: bool, session: nat, i: EvidenceInput, e: Evidence)
    requires inputs != [] && Keyed(inputs) && Leads(i, inputs, session)
    requires Contend(i, inputs[0], indexed) && i != inputs[0]
    requires e in Select(AcceptedEvidence(Deliver(inputs, indexed), session))
    ensures e.id != i.evidence.id
  {
    var k := SelectedWasKept(inputs, indexed, session, e);
    if k == i {
      if indexed {
        FirstKept(inputs, true);
        KeptExactly(inputs);
      } else {
        TieStaysOut(inputs, session, i);
      }
    } else {
      KeyedApartIds(inputs, k, i);
    }
  }

  lemma KeyedApartIds(inputs: seq<EvidenceInput>, i: EvidenceInput, j: EvidenceInput)
    requires Keyed(inputs) && i in inputs && j in inputs && i != j
    ensures i.evidence.id != j.evidence.id
  {}

  lemma TiedLeads(inputs: seq<EvidenceInput>, session: nat, i: EvidenceInput, j: EvidenceInput)
    requires Leads(i, inputs, session) && j in inputs && Contend(i, j, false)
    ensures Leads(j, inputs, session)
  {
    var delivered := DeliveredEvidence(inputs, session);
    DeliveredMembers(inputs, session, j.evidence);
    forall x | x in delivered && SameKey(x, j.evidence) ensures !Newer(x, j.evidence) {
      assert !Newer(x, i.evidence);
    }
  }

  lemma TieStaysOut(inputs: seq<EvidenceInput>, session: nat, i: EvidenceInput)
    requires inputs != [] && Keyed(inputs) && Leads(i, inputs, session)
    requires Contend(i, inputs[0], false) && i != inputs[0]
    ensures i.evidence !in Select(AcceptedEvidence(Deliver(inputs, false), session))
  {
    var accepted := AcceptedEvidence(Deliver(inputs, false), session);
    TiedLeads(inputs, session, i, inputs[0]);
    FirstLeads(inputs, false, session);
    SelectSorted(accepted);
    KeyedApartIds(inputs, inputs[0], i);
    if i.evidence in Select(accepted) {
      SortedKeyUnique(Select(accepted), i.evidence, inputs[0].evidence);
    }
  }

  lemma WithFirst(inputs: seq<EvidenceInput>, i: EvidenceInput, session: nat)
    requires Keyed(inputs) && i in inputs
    ensures SameEvents([i] + inputs, inputs) && Keyed([i] + inputs)
    ensures forall k :: Leads(k, [i] + inputs, session) <==> Leads(k, inputs, session)
  {
    SameDelivered([i] + inputs, inputs, session);
  }

  lemma ContendersDecide(inputs: seq<EvidenceInput>, indexed: bool, session: nat, policy: Policy,
                         i: EvidenceInput, j: EvidenceInput)
    requires Keyed(inputs) && Leads(i, inputs, session) && j in inputs && Contend(i, j, indexed) && i != j
    ensures VerdictOf([i] + inputs, indexed, session, policy) != VerdictOf([j] + inputs, indexed, session, policy)
  {
    var a, b := [i] + inputs, [j] + inputs;
    WithFirst(inputs, i, session);
    WithFirst(inputs, j, session);
    FirstLeads(a, indexed, session);
    SelectedIds(AcceptedEvidence(Deliver(a, indexed), session), policy, i.evidence.id);
    SelectedIds(AcceptedEvidence(Deliver(b, indexed), session), policy, i.evidence.id);
    if e :| e in Select(AcceptedEvidence(Deliver(b, indexed), session)) && e.id == i.evidence.id {
      ContenderLoses(b, indexed, session, i, e);
    }
  }

  lemma DisputedOrders(inputs: seq<EvidenceInput>, indexed: bool, session: nat, policy: Policy)
    returns (a: seq<EvidenceInput>, b: seq<EvidenceInput>)
    requires Keyed(inputs) && !Undisputed(inputs, indexed, session)
    ensures SameEvents(a, inputs) && SameEvents(b, inputs)
    ensures VerdictOf(a, indexed, session, policy) != VerdictOf(b, indexed, session, policy)
  {
    var i, j :| Leads(i, inputs, session) && j in inputs && Contend(i, j, indexed) && i != j;
    a, b := [i] + inputs, [j] + inputs;
    ContendersDecide(inputs, indexed, session, policy, i, j);
    WithFirst(inputs, i, session);
    WithFirst(inputs, j, session);
  }

  /** Whatever the policy, the order of delivery makes no difference exactly when no newest event of a window and type
      has to contend with another event of the session. */
  lemma OrderIndependentExactly(inputs: seq<EvidenceInput>, indexed: bool, session: nat, policy: Policy)
    requires Keyed(inputs)
    ensures OrderIndependent(inputs, indexed, session, policy) <==> Undisputed(inputs, indexed, session)
  {
    if Undisputed(inputs, indexed, session) {
      forall a, b | SameEvents(a, inputs) && SameEvents(b, inputs)
        ensures VerdictOf(a, indexed, session, policy) == VerdictOf(b, indexed, session, policy)
      {
        DeliveryOrderIndependent(inputs, a, indexed, session, policy);
        DeliveryOrderIndependent(inputs, b, indexed, session, policy);
      }
    } else {
      var a, b := DisputedOrders(inputs, indexed, session, policy);
    }
  }

  // ---------------------------------------------------------------- what the order can decide

  /** An event of window 1 as a scoring model writes it. */
  function Scored(id: string, evidenceType: EvidenceType, target: ScoreTarget, score: real, eventSequence: int,
                  revision: int): EvidenceInput {
    EvidenceInput(0,
      Evidence(id, Simulated, evidenceType, Ready, 1, eventSequence, revision, 0, Some(1.0), Some(1000), [], Some(score),
               None, None, HigherMeansMore, Some(target), Some(Registered), true),
      0, 0, [], None, None)
  }

  /** Thresholds of one half and single-window counts. */
  const DIRECT := Policy(0.5, 100, [], 0.5, 0.5, 0.5, 0.5, 0.5, 0.5, 1, 1, 0, [], [])

  lemma KeptPair(i: EvidenceInput, a: EvidenceInput, b: EvidenceInput)
    requires Collide(a, b) && !Collide(i, a) && i != a
    ensures Kept([i, a, b], true) == [i, a]
  {
    assert [i, a, b][..2] == [i, a] && [i, a][..1] == [i] && [i][..0] == [];
    assert Kept([], true) == [];
    assert Kept([i], true) == [i];
    assert Kept([i, a], true) == [i, a];
    assert a in [i, a];
  }

  lemma PairVerdict(i: EvidenceInput, a: EvidenceInput, b: EvidenceInput, policy: Policy)
    requires Keyed([i, a, b]) && Collide(a, b) && !Collide(i, a) && i != a && i.session == a.session == 0
    ensures VerdictOf([i, a, b], true, 0, policy) == Evaluate([i.evidence, a.evidence], policy)
  {
    KeptPair(i, a, b);
    VerdictSeesKept([i, a, b], true, 0, policy);
    assert [i, a][..1] == [i] && [i][..0] == [];
    assert DeliveredEvidence([], 0) == [];
    assert DeliveredEvidence([i], 0) == [i.evidence];
    assert DeliveredEvidence([i, a], 0) == [i.evidence, a.evidence];
  }

  lemma FirstSpoofDecides(i: EvidenceInput, a: EvidenceInput, b: EvidenceInput, score: real)
    requires i == Scored("i", Identity, ExpectedSpeaker, 1.0, 1, 0)
    requires a == Scored(a.evidence.id, SpoofFast, Spoof, score, a.evidence.eventSequence, 0) && 0.0 <= score <= 1.0
    requires a.evidence.eventSequence > 1
    requires Keyed([i, a, b]) && Collide(a, b)
    ensures var v := VerdictOf([i, a, b], true, 0, DIRECT);
      v.Ok? && v.value.effectiveState == if score >= 0.5 then Critical else Verified
  {
    PairVerdict(i, a, b, DIRECT);
    ScoredPair(i.evidence, a.evidence, score);
    OneWindowVerdict(DIRECT, i.evidence, a.evidence);
  }

  lemma ScoredPair(i: Evidence, a: Evidence, score: real)
    requires i == Scored("i", Identity, ExpectedSpeaker, 1.0, 1, 0).evidence && 0.0 <= score <= 1.0
    requires a == Scored(a.id, SpoofFast, Spoof, score, a.eventSequence, 0).evidence
    ensures AllReady([i, a]) && AllPassQuality([i, a], DIRECT) && i.windowSequence == a.windowSequence
    ensures TargetScore(i, ExpectedSpeaker) == Some(1.0) && TargetScore(a, Spoof) == Some(score)
    ensures Decide(DIRECT, Unverified, 1.0, score) == if score >= 0.5 then Critical else Verified
  {}

  lemma SpoofKeyed(i: EvidenceInput, a: EvidenceInput, b: EvidenceInput)
    requires Plain(i) && Plain(a) && Plain(b)
    requires i.evidence.id == "i" && a.evidence.id == "a" && b.evidence.id == "b"
    ensures Keyed([i, a, b]) && Keyed([i, b, a])
  {
    assert "i"[0] != "a"[0] && "i"[0] != "b"[0] && "a"[0] != "b"[0];
  }

  /** Under the schema's indexes the order of two spoof events of one revision decides between VERIFIED and CRITICAL. */
  lemma OrderDecidesState()
    ensures var identity := Scored("i", Identity, ExpectedSpeaker, 1.0, 1, 0);
      var low, high := Scored("a", SpoofFast, Spoof, 0.0, 2, 0), Scored("b", SpoofFast, Spoof, 1.0, 3, 0);
      var x, y := VerdictOf([identity, low, high], true, 0, DIRECT), VerdictOf([identity, high, low], true, 0, DIRECT);
      x.Ok? && x.value.effectiveState == Verified && y.Ok? && y.value.effectiveState == Critical
  {
    var identity := Scored("i", Identity, ExpectedSpeaker, 1.0, 1, 0);
    var low, high := Scored("a", SpoofFast, Spoof, 0.0, 2, 0), Scored("b", SpoofFast, Spoof, 1.0, 3, 0);
    SpoofKeyed(identity, low, high);
    FirstSpoofDecides(identity, low, high, 0.0);
    FirstSpoofDecides(identity, high, low, 1.0);
  }

  /** If one event outranks two others in their window and type and collides with neither, nothing is disputed. */
  lemma OutrankedUndisputed(a: EvidenceInput, b: EvidenceInput, c: EvidenceInput)
    requires a.session == b.session == c.session
    requires SameKey(a.evidence, c.evidence) && SameKey(b.evidence, c.evidence)
    requires Newer(c.evidence, a.evidence) && Newer(c.evidence, b.evidence) && !Collide(c, a) && !Collide(c, b)
    ensures Undisputed([a, b, c], true, c.session)
  {
    forall i, j | Leads(i, [a, b, c], c.session) && j in [a, b, c] && Contend(i, j, true) ensures i == j {
      assert c in [a, b, c];
      DeliveredMembers([a, b, c], c.session, c.evidence);
    }
  }

  lemma SamplesKeyed(a: EvidenceInput, b: EvidenceInput, c: EvidenceInput)
    requires a == Sample("a", 1, 0) && b == Sample("b", 2, 0) && c == Sample("c", 3, 1)
    ensures Keyed([a, b, c])
  {
    assert "a"[0] != "b"[0] && "a"[0] != "c"[0] && "b"[0] != "c"[0];
  }

  /** A collision of events that a later revision outranks makes no difference. */
  lemma OutrankedCollisionHarmless(policy: Policy)
    ensures var a, b, c := Sample("a", 1, 0), Sample("b", 2, 0), Sample("c", 3, 1);
      Collide(a, b) && OrderIndependent([a, b, c], true, 0, policy)
  {
    var a, b, c := Sample("a", 1, 0), Sample("b", 2, 0), Sample("c", 3, 1);
    SamplesKeyed(a, b, c);
    OutrankedUndisputed(a, b, c);
    OrderIndependentExactly([a, b, c], true, 0, policy);
  }

  // ---------------------------------------------------------------- what the indexes add

  /** No two rows of one window and type are accepted together. */
  ghost predicate OneAccepted(rows: seq<EvidenceRow>) {
    forall i, j :: 0 <= i < j < |rows| && rows[i].status == Accepted && rows[j].status == Accepted
      ==> !SameRowSlot(rows[i], rows[j])
  }

  /** With the schema's unique indexes this holds along every run of deliveries whatsoever. */
  lemma {:induction false} IndexedOneAccepted(inputs: seq<EvidenceInput>)
    ensures OneAccepted(Deliver(inputs, true))
  {
    if inputs != [] {
      var init, last := inputs[..|inputs| - 1], inputs[|inputs| - 1];
      IndexedOneAccepted(init);
      RecordKeepsOne(Deliver(init, true), last);
    }
  }

  lemma RecordKeepsOne(rows: seq<EvidenceRow>, input: EvidenceInput)
    requires OneAccepted(rows)
    ensures OneAccepted(Record(rows, input, true).rows)
  {
    var rows' := Record(rows, input, true).rows;
    if rows' != rows && rows'[|rows'| - 1].status == Accepted {
      var latest := LatestAccepted(rows, input);
      forall i | 0 <= i < |rows| && rows'[i].status == Accepted ensures !SameRowSlot(rows'[i], rows'[|rows'| - 1]) {
        assert rows[i] in rows;
      }
    }
  }

  function Sample(id: string, eventSequence: int, revision: int): EvidenceInput {
    EvidenceInput(0,
      Evidence(id, Simulated, Identity, Ready, 1, eventSequence, revision, 0, None, None, [], Some(0.5), None, None,
               HigherMeansMore, Some(ExpectedSpeaker), Some(Registered), true),
      0, 0, [], None, None)
  }

  /** The repository code by itself lets two rows of equal revision stay accepted side by side. */
  lemma UnindexedTwoAccepted()
    ensures var rows := Deliver([Sample("a", 1, 0), Sample("b", 2, 0)], false);
      |rows| == 2 && rows[0].status == Accepted && rows[1].status == Accepted && SameRowSlot(rows[0], rows[1])
  {
    var a, b := Sample("a", 1, 0), Sample("b", 2, 0);
    assert [a, b][..1] == [a] && [a][..0] == [];
    assert Deliver([], false) == [];
    assert Deliver([a], false) == [NewRow(a, Accepted, None)];
    assert "a" != "b";
  }

  /** Presenting an event again changes nothing. One that was refused is refused again; one that was kept is answered
      with its row only while no later revision of its window and type has been kept: the comparison includes the
      status the row has meanwhile lost. */
  lemma RedeliveryExact(inputs: seq<EvidenceInput>, i: EvidenceInput)
    requires Keyed(inputs) && i in inputs
    ensures var rows, kept := Deliver(inputs, true), Kept(inputs, true);
      var again := Record(rows, i, true);
      && again.rows == rows
      && (i !in kept ==> again.row == Err(UNIQUE_VIOLATION))
      && (i in kept ==>
            if exists j :: j in kept && Revises(j, i) then again.row == Err(IDEMPOTENCY_CONFLICT)
            else again.row.Ok? && Carries(again.row.value, i))
  {
    var rows, kept := Deliver(inputs, true), Kept(inputs, true);
    DeliverKeeps(inputs, true);
    KeptExactly(inputs);
    if i in kept {
      KeptAgain(inputs, i);
    } else {
      forall j | j in kept + [i] ensures j in inputs {
        if j in kept { KeptDelivered(inputs, true, j); }
      }
      RecordedExactly(rows, kept, i, true);
    }
  }

  /** A later revision of the same window and type. */
  ghost predicate Revises(j: EvidenceInput, i: EvidenceInput) {
    j.session == i.session && SameKey(j.evidence, i.evidence) && j.evidence.revision > i.evidence.revision
  }

  lemma KeptAgain(inputs: seq<EvidenceInput>, i: EvidenceInput)
    requires Keyed(inputs) && i in Kept(inputs, true)
    ensures var rows, kept := Deliver(inputs, true), Kept(inputs, true);
      var again := Record(rows, i, true);
      && again.rows == rows
      && if exists j :: j in kept && Revises(j, i) then again.row == Err(IDEMPOTENCY_CONFLICT)
         else again.row.Ok? && Carries(again.row.value, i)
  {
    var rows, kept := Deliver(inputs, true), Kept(inputs, true);
    DeliverKeeps(inputs, true);
    KeptKeyed(inputs, true);
    IndexedOneAccepted(inputs);
    var stored := RowOf(rows, kept, i);
    var k := FindKey(rows, i.evidence.id);
    var r := rows[k.value];
    assert r in rows;
    var source := SourceOf(rows, kept, r);
    assert source == i;
    if r.status == Accepted {
      forall j | j in kept ensures !Revises(j, i) {
        if j.session == r.session && SameKey(j.evidence, r.evidence) {
          AcceptedIsTop(kept, rows, r, j);
        }
      }
    } else {
      var a :| a in rows && Outranks(a, r);
      var j := SourceOf(rows, kept, a);
      assert Revises(j, i);
    }
  }

  lemma AcceptedIsTop(inputs: seq<EvidenceInput>, rows: seq<EvidenceRow>, r: EvidenceRow, j: EvidenceInput)
    requires Outranked(rows) && Holds(rows, inputs) && OneAccepted(rows)
    requires r in rows && r.status == Accepted
    requires j in inputs && j.session == r.session && SameKey(j.evidence, r.evidence)
    ensures j.evidence.revision <= r.evidence.revision
  {
    var q := RowOf(rows, inputs, j);
    if q.status == Accepted {
      TwoAccepted(rows, q, r);
    } else {
      var a :| a in rows && Outranks(a, q);
      TwoAccepted(rows, a, r);
    }
  }

  lemma TwoAccepted(rows: seq<EvidenceRow>, a: EvidenceRow, b: EvidenceRow)
    requires OneAccepted(rows) && a in rows && b in rows && a.status == Accepted && b.status == Accepted
    requires SameRowSlot(a, b)
    ensures a == b
  {
    var i :| 0 <= i < |rows| && rows[i] == a;
    var j :| 0 <= j < |rows| && rows[j] == b;
  }
}

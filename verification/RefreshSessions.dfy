/**
 Rotating refresh sessions. Each login opens a family; presenting the family's active token rotates it, presenting any
 other token of the family closes it. Transactions are serializable, so each is one step.
 */
module RefreshSessions {
  import opened Wrappers

  datatype SessionStatus = Active | Rotated | Revoked | Expired

  datatype Session = Session(token: string, family: nat, status: SessionStatus, expiresAt: int)

  /** `nextFamily` stands for the fresh random family identifier of a login. */
  datatype Table = Table(now: int, sessions: seq<Session>, nextFamily: nat)

  datatype Kind = RotatedKind | InvalidKind | ExpiredKind | ReuseKind | ConflictKind

  datatype Rotation = Rotation(kind: Kind, table: Table)

  function Find(sessions: seq<Session>, token: string): (r: Option<nat>)
    ensures r.Some? ==> r.value < |sessions| && sessions[r.value].token == token
    ensures r.None? ==> forall s :: s in sessions ==> s.token != token
  {
    if sessions == [] then None
    else if sessions[|sessions| - 1].token == token then Some(|sessions| - 1)
    else Find(sessions[..|sessions| - 1], token)
  }

  /** The update of all active sessions of a family. */
  function RevokeActive(sessions: seq<Session>, family: nat): (r: seq<Session>)
    ensures |r| == |sessions|
    ensures forall i :: 0 <= i < |sessions| ==>
      r[i] == if sessions[i].family == family && sessions[i].status == Active
              then sessions[i].(status := Revoked) else sessions[i]
  {
    seq(|sessions|, i requires 0 <= i < |sessions| =>
      if sessions[i].family == family && sessions[i].status == Active then sessions[i].(status := Revoked) else sessions[i])
  }

  /** A login; `identityActive` says whether device, membership and user still are. */
  function Create(t: Table, token: string, expiresAt: int, identityActive: bool): Table {
    if !identityActive || Find(t.sessions, token).Some? then t
    else t.(sessions := t.sessions + [Session(token, t.nextFamily, Active, expiresAt)], nextFamily := t.nextFamily + 1)
  }

  function Rotate(t: Table, current: string, next: string, expiresAt: int, identityActive: bool): Rotation {
    var found := Find(t.sessions, current);
    if found.None? then Rotation(InvalidKind, t)
    else
      var i := found.value;
      var s := t.sessions[i];
      if s.status != Active then Rotation(ReuseKind, t.(sessions := RevokeActive(t.sessions, s.family)))
      else if s.expiresAt <= t.now then Rotation(ExpiredKind, t.(sessions := t.sessions[i := s.(status := Expired)]))
      else if !identityActive then Rotation(InvalidKind, t.(sessions := RevokeActive(t.sessions, s.family)))
      else if Find(t.sessions, next).Some? then Rotation(ConflictKind, t)
      else Rotation(RotatedKind, t.(
        sessions := t.sessions[i := s.(status := Rotated)] + [Session(next, s.family, Active, expiresAt)]))
  }

  function RevokeFamily(t: Table, token: string): Table {
    var found := Find(t.sessions, token);
    if found.None? then t else t.(sessions := RevokeActive(t.sessions, t.sessions[found.value].family))
  }

  class RefreshSessionRepository {
    var now: int
    var sessions: seq<Session>
    var nextFamily: nat

    constructor ()
      ensures Contents() == Table(0, [], 0)
    {
      now, sessions, nextFamily := 0, [], 0;
    }

    ghost function Contents(): Table
      reads this
    {
      Table(now, sessions, nextFamily)
    }

    method RevokeActiveSessions(family: nat)
      modifies `sessions
      ensures sessions == RevokeActive(old(sessions), family)
    {
      for i := 0 to |sessions|
        invariant |sessions| == |old(sessions)|
        invariant forall j :: 0 <= j < |sessions| ==>
          sessions[j] == if j < i then RevokeActive(old(sessions), family)[j] else old(sessions)[j]
      {
        if sessions[i].family == family && sessions[i].status == Active {
          sessions := sessions[i := sessions[i].(status := Revoked)];
        }
      }
    }

    method CreateSession(token: string, expiresAt: int, identityActive: bool) returns (created: bool)
      modifies this
      ensures Contents() == Create(old(Contents()), token, expiresAt, identityActive)
      ensures created <==> Contents() != old(Contents())
    {
      created := false;
      if identityActive && Find(sessions, token).None? {
        sessions := sessions + [Session(token, nextFamily, Active, expiresAt)];
        nextFamily := nextFamily + 1;
        created := true;
      }
    }

    method RotateSession(current: string, next: string, expiresAt: int, identityActive: bool) returns (kind: Kind)
      modifies this
      ensures Rotation(kind, Contents()) == Rotate(old(Contents()), current, next, expiresAt, identityActive)
    {
      var found := Find(sessions, current);
      if found.None? {
        return InvalidKind;
      }
      var i, s := found.value, sessions[found.value];
      if s.status != Active {
        RevokeActiveSessions(s.family);
        return ReuseKind;
      }
      if s.expiresAt <= now {
        sessions := sessions[i := s.(status := Expired)];
        return ExpiredKind;
      }
      if !identityActive {
        RevokeActiveSessions(s.family);
        return InvalidKind;
      }
      if sessions[i].status != Active {
        assert false;  // within one transaction the guarded update always matches
      }
      if Find(sessions, next).Some? {
        return ConflictKind;  // the insert fails and the transaction rolls back
      }
      sessions := sessions[i := s.(status := Rotated)];
      sessions := sessions + [Session(next, s.family, Active, expiresAt)];
      kind := RotatedKind;
    }

    method RevokeTokenFamily(token: string) returns (known: bool)
      modifies this
      ensures Contents() == RevokeFamily(old(Contents()), token)
      ensures known <==> Find(old(sessions), token).Some?
    {
      var found := Find(sessions, token);
      known := found.Some?;
      if known {
        RevokeActiveSessions(sessions[found.value].family);
      }
    }
  }

  // ---------------------------------------------------------------- runs

  datatype Step =
    | Tick(elapsed: nat)
    | Login(token: string, expiresAt: int, identityActive: bool)
    | Present(token: string, next: string, expiresAt: int, identityActive: bool)
    | Logout(token: string)

  function Perform(t: Table, step: Step): Table {
    match step
    case Tick(elapsed) => t.(now := t.now + elapsed)
    case Login(token, expiresAt, identityActive) => Create(t, token, expiresAt, identityActive)
    case Present(token, next, expiresAt, identityActive) => Rotate(t, token, next, expiresAt, identityActive).table
    case Logout(token) => RevokeFamily(t, token)
  }

  function Execute(t: Table, steps: seq<Step>): Table {
    if steps == [] then t else Perform(Execute(t, steps[..|steps| - 1]), steps[|steps| - 1])
  }

  /** Only the newest session of a family can be active, and families are numbered below the next one. */
  ghost predicate Inv(t: Table) {
    && (forall i, j :: 0 <= i < j < |t.sessions| && t.sessions[i].family == t.sessions[j].family ==>
          t.sessions[i].status != Active)
    && forall i :: 0 <= i < |t.sessions| ==> t.sessions[i].family < t.nextFamily
  }

  lemma StepKeeps(t: Table, step: Step)
    requires Inv(t)
    ensures Inv(Perform(t, step))
  {}

  lemma {:induction false} ExecuteKeeps(t: Table, steps: seq<Step>)
    requires Inv(t)
    ensures Inv(Execute(t, steps))
  {
    if steps != [] {
      ExecuteKeeps(t, steps[..|steps| - 1]);
      StepKeeps(Execute(t, steps[..|steps| - 1]), steps[|steps| - 1]);
    }
  }

  /** Along every run a family has at most one active session, and it is the newest of the family. */
  lemma OneActivePerFamily(steps: seq<Step>, i: nat, j: nat)
    requires var sessions := Execute(Table(0, [], 0), steps).sessions;
      i < |sessions| && j < |sessions| && sessions[i].family == sessions[j].family && sessions[i].status == Active
    ensures j <= i
    ensures Execute(Table(0, [], 0), steps).sessions[j].status == Active ==> i == j
  {
    ExecuteKeeps(Table(0, [], 0), steps);
  }

  /** The family has been opened and has no active session. */
  ghost predicate Dead(t: Table, family: nat) {
    family < t.nextFamily
    && forall i :: 0 <= i < |t.sessions| && t.sessions[i].family == family ==> t.sessions[i].status != Active
  }

  lemma DeadStep(t: Table, step: Step, family: nat)
    requires Inv(t) && Dead(t, family)
    ensures Dead(Perform(t, step), family)
  {}

  /** A dead family stays dead: no session of it is ever active again. */
  lemma {:induction false} DeadForever(t: Table, steps: seq<Step>, family: nat)
    requires Inv(t) && Dead(t, family)
    ensures Dead(Execute(t, steps), family)
  {
    if steps != [] {
      DeadForever(t, steps[..|steps| - 1], family);
      ExecuteKeeps(t, steps[..|steps| - 1]);
      DeadStep(Execute(t, steps[..|steps| - 1]), steps[|steps| - 1], family);
    }
  }

  /** Presenting a known token leaves its family alive exactly when the token was active, unexpired and its identity
      active; then the next token is the active one, unless it collides with a known token. */
  lemma PresentationExact(t: Table, token: string, next: string, expiresAt: int, identityActive: bool)
    requires Inv(t) && Find(t.sessions, token).Some?
    ensures var s := t.sessions[Find(t.sessions, token).value];
      var r := Rotate(t, token, next, expiresAt, identityActive);
      && (Dead(r.table, s.family) <==> !(s.status == Active && s.expiresAt > t.now && identityActive))
      && (r.kind == RotatedKind <==> !Dead(r.table, s.family) && Find(t.sessions, next).None?)
      && (r.kind == RotatedKind ==>
            r.table.sessions[|t.sessions|] == Session(next, s.family, Active, expiresAt))
  {
    var i := Find(t.sessions, token).value;
    var r := Rotate(t, token, next, expiresAt, identityActive);
    if r.kind == RotatedKind {
      assert r.table.sessions[|t.sessions|].status == Active;
    } else if r.kind == ConflictKind {
      assert r.table.sessions[i].status == Active;
    }
  }

  /** Once a token that is no longer active has been presented, or a token revoked, its family is over for good. */
  lemma ReuseClosesFamily(t: Table, token: string, presented: Step, later: seq<Step>)
    requires Inv(t) && Find(t.sessions, token).Some?
    requires presented == Logout(token)
          || (presented.Present? && presented.token == token && t.sessions[Find(t.sessions, token).value].status != Active)
    ensures Dead(Execute(Perform(t, presented), later), t.sessions[Find(t.sessions, token).value].family)
  {
    var family := t.sessions[Find(t.sessions, token).value].family;
    StepKeeps(t, presented);
    assert Dead(Perform(t, presented), family);
    DeadForever(Perform(t, presented), later, family);
  }
}

/**
 What holds along every interleaving of publishing, unpublishing, starting, stopping, expiring and ending: one active
 binding per call, one open session per call and only on that binding, and statuses that never come back.
 */
module CallBindingRuns {
  import opened Wrappers
  import opened CallBinding

  /** The n-th track, binding and session were created together. */
  ghost predicate Aligned(calls: nat, tracks: seq<Track>, bindings: seq<Binding>, sessions: seq<Session>) {
    && |tracks| == |bindings| == |sessions|
    && forall i :: 0 <= i < |bindings| ==> Together(calls, i, tracks[i], bindings[i], sessions[i])
  }

  ghost predicate Together(calls: nat, i: nat, track: Track, binding: Binding, session: Session) {
    && binding.track == i && session.binding == i
    && track.call == binding.call == session.call < calls
  }

  /** Revisions of a call grow, and only its last binding can be active. */
  ghost predicate Revised(bindings: seq<Binding>) {
    forall i, j :: 0 <= i < j < |bindings| && bindings[i].call == bindings[j].call ==>
      bindings[i].revision < bindings[j].revision && bindings[i].status != BindingActive
  }

  /** Open sessions hang on active bindings. */
  ghost predicate Attached(bindings: seq<Binding>, sessions: seq<Session>) {
    |bindings| == |sessions|
    && forall i :: 0 <= i < |sessions| && Open(sessions[i].status) ==> bindings[i].status == BindingActive
  }

  ghost predicate Inv(db: Db) {
    Aligned(|db.calls|, db.tracks, db.bindings, db.sessions) && Revised(db.bindings) && Attached(db.bindings, db.sessions)
  }

  /** Every session keeps everything but its status, and none opens. */
  ghost predicate Narrowed(before: seq<Session>, after: seq<Session>) {
    |after| == |before|
    && forall i :: 0 <= i < |before| ==>
         after[i] == before[i].(status := after[i].status) && (Open(after[i].status) ==> Open(before[i].status))
  }

  lemma NarrowedKeeps(db: Db, sessions: seq<Session>)
    requires Inv(db) && Narrowed(db.sessions, sessions)
    ensures Inv(db.(sessions := sessions))
  {
    AlignedAt(db);
  }

  lemma AlignedAt(db: Db)
    requires Inv(db)
    ensures |db.tracks| == |db.bindings| == |db.sessions|
    ensures forall i :: 0 <= i < |db.bindings| ==>
      && db.bindings[i].track == i && db.sessions[i].binding == i
      && db.tracks[i].call == db.bindings[i].call == db.sessions[i].call < |db.calls|
  {
    forall i | 0 <= i < |db.bindings|
      ensures Together(|db.calls|, i, db.tracks[i], db.bindings[i], db.sessions[i])
    {}
  }

  lemma CallsKeep(db: Db, calls: seq<CallRow>)
    requires Inv(db) && |calls| >= |db.calls|
    ensures Inv(db.(calls := calls))
  {
    AlignedAt(db);
  }

  lemma TransitionKeeps(db: Db, session: nat, expected: SessionStatus, next: SessionStatus)
    requires Inv(db) && (Open(next) ==> Open(expected))
    ensures Inv(TransitionSession(db, session, expected, next).db)
  {
    NarrowedKeeps(db, TransitionSession(db, session, expected, next).db.sessions);
  }

  lemma ExpireKeeps(db: Db)
    requires Inv(db)
    ensures Inv(ExpireSessions(db))
  {
    NarrowedKeeps(db, ExpireSessions(db).sessions);
  }

  lemma RevisionGrows(bindings: seq<Binding>, call: nat, i: nat)
    requires i < |bindings| && bindings[i].call == call
    ensures bindings[i].revision <= MaximumRevision(bindings, call)
  {
    assert bindings[i] in bindings;
  }

  lemma NewBindingKeeps(db: Db, input: BindInput)
    requires Inv(db) && input.call < |db.calls|
    ensures Inv(NewBinding(db, input))
  {
    AlignedAt(db);
    NewBindingRevised(db, input);
  }

  lemma NewBindingRevised(db: Db, input: BindInput)
    requires Inv(db) && input.call < |db.calls|
    ensures Revised(NewBinding(db, input).bindings)
  {
    var db' := NewBinding(db, input);
    var n := |db.bindings|;
    AlignedAt(db);
    forall i, j | 0 <= i < j < |db'.bindings| && db'.bindings[i].call == db'.bindings[j].call
      ensures db'.bindings[i].revision < db'.bindings[j].revision && db'.bindings[i].status != BindingActive
    {
      if j == n { RevisionGrows(db.bindings, input.call, i); }
    }
  }

  /** Bindings only stop being active, and take their open sessions along. */
  ghost predicate Released(before: Db, after: Db) {
    && |after.tracks| == |before.tracks| && |after.bindings| == |before.bindings| == |before.sessions| == |after.sessions|
    && after.calls == before.calls
    && (forall i :: 0 <= i < |before.tracks| ==> after.tracks[i].call == before.tracks[i].call)
    && (forall i :: 0 <= i < |before.bindings| ==>
          after.bindings[i] == before.bindings[i].(status := after.bindings[i].status)
          && (after.bindings[i].status == BindingActive ==> before.bindings[i].status == BindingActive))
    && (forall i :: 0 <= i < |before.sessions| ==>
          after.sessions[i] == before.sessions[i].(status := after.sessions[i].status)
          && (Open(after.sessions[i].status) ==> Open(before.sessions[i].status)))
    && forall i :: 0 <= i < |before.bindings| && after.bindings[i].status != before.bindings[i].status ==>
         !Open(after.sessions[i].status)
  }

  lemma ReleasedAligned(before: Db, after: Db)
    requires Inv(before) && Released(before, after)
    ensures Aligned(|after.calls|, after.tracks, after.bindings, after.sessions)
  {
    AlignedAt(before);
  }

  lemma ReleasedKeeps(before: Db, after: Db)
    requires Inv(before) && Released(before, after)
    ensures Inv(after)
  {
    ReleasedAligned(before, after);
  }

  /** A track's binding has the track's position. */
  lemma OwnBinding(db: Db, i: nat)
    requires Inv(db) && i < |db.tracks|
    ensures i < |db.bindings| && FindBinding(db.bindings, i) == Some(i)
  {
    AlignedAt(db);
    assert db.bindings[i] in db.bindings;
  }

  /** Closing a track closes the binding of the same position and its session. */
  lemma CloseReleases(db: Db, call: nat, sid: string)
    requires Inv(db)
    ensures Released(db, CloseTrack(db, call, sid).db)
    ensures var track := FindTrack(db.tracks, sid);
      track.Some? && db.tracks[track.value].call == call ==>
        FindBinding(db.bindings, track.value) == Some(track.value)
        && CloseTrack(db, call, sid).db.bindings[track.value].status != BindingActive
  {
    var track := FindTrack(db.tracks, sid);
    AlignedAt(db);
    if track.Some? && db.tracks[track.value].call == call {
      OwnBinding(db, track.value);
      ClosedBinding(db, call, sid, track.value);
    }
  }

  lemma ClosedBinding(db: Db, call: nat, sid: string, i: nat)
    requires i < |db.tracks| == |db.bindings| == |db.sessions|
    requires FindTrack(db.tracks, sid) == Some(i) && db.tracks[i].call == call && FindBinding(db.bindings, i) == Some(i)
    requires db.sessions[i].binding == i
    ensures Released(db, CloseTrack(db, call, sid).db)
    ensures CloseTrack(db, call, sid).db.bindings[i].status != BindingActive
  {}

  lemma CloseKeeps(db: Db, call: nat, sid: string)
    requires Inv(db)
    ensures Inv(CloseTrack(db, call, sid).db)
  {
    CloseReleases(db, call, sid);
    ReleasedKeeps(db, CloseTrack(db, call, sid).db);
  }

  lemma EndKeeps(db: Db, call: nat)
    requires Inv(db)
    ensures Inv(EndCall(db, call).db)
  {
    AlignedAt(db);
  }

  /** A caller has read a status that can only be left. */
  ghost predicate Reads(caller: Caller) {
    && (caller.StartFound? ==> caller.status == SessionAuthorized || caller.status == SessionStarting)
    && (caller.StopFound? ==> !Terminal(caller.status))
  }

  lemma AdvanceKeeps(db: Db, caller: Caller, answered: bool)
    requires Inv(db) && Reads(caller)
    ensures Inv(Advance(db, caller, answered).db) && Reads(Advance(db, caller, answered).caller)
  {
    match caller
    case Idle =>
    case StartFound(session, status) =>
      TransitionKeeps(db, session, status, SessionExpired);
      TransitionKeeps(db, session, status, SessionRevoked);
      TransitionKeeps(db, session, SessionAuthorized, SessionStarting);
    case StartCalling(session) => TransitionKeeps(db, session, SessionStarting, SessionActive);
    case StopFound(session, status) =>
      TransitionKeeps(db, session, status, SessionRevoked);
      TransitionKeeps(db, session, status, SessionStopping);
    case StopCalling(session) => TransitionKeeps(db, session, SessionStopping, SessionStopped);
  }

  /** A caller only ever writes sessions. */
  lemma AdvanceFrame(db: Db, caller: Caller, answered: bool)
    ensures var db' := Advance(db, caller, answered).db;
      db' == db.(sessions := db'.sessions) && |db'.sessions| == |db.sessions|
    ensures forall i :: 0 <= i < |db.sessions| ==> Advance(db, caller, answered).db.sessions[i].call == db.sessions[i].call
  {}

  ghost predicate SystemInv(s: System) {
    Inv(s.db) && forall w :: 0 <= w < |s.callers| ==> Reads(s.callers[w])
  }

  lemma PublishKeeps(db: Db, input: BindInput)
    requires Inv(db)
    ensures Inv(BindTrack(db, input).db)
  {
    if BindTrack(db, input).db != db { NewBindingKeeps(db, input); }
  }

  lemma TickKeeps(db: Db, now: int)
    requires Inv(db)
    ensures Inv(db.(now := now))
  {}

  lemma MoveKeeps(db: Db, call: nat, from: CallStatus, next: CallStatus)
    requires Inv(db)
    ensures Inv(TransitionCall(db, call, from, next).db)
  {
    CallsKeep(db, TransitionCall(db, call, from, next).db.calls);
  }

  /** Reading a session leaves a caller with a status that can only be left. */
  lemma CallerKeeps(s: System, w: nat, caller: Caller)
    requires SystemInv(s) && w < |s.callers| && Reads(caller)
    ensures SystemInv(s.(callers := s.callers[w := caller]))
  {}

  lemma ContinueKeeps(s: System, w: nat, answered: bool)
    requires SystemInv(s) && w < |s.callers|
    ensures SystemInv(Perform(s, Continue(w, answered)))
  {
    AdvanceKeeps(s.db, s.callers[w], answered);
  }

  lemma StepKeeps(s: System, step: Step)
    requires SystemInv(s)
    ensures SystemInv(Perform(s, step))
  {
    match step
    case Tick(elapsed) => TickKeeps(s.db, s.db.now + elapsed);
    case CreateCall(participants) => CallsKeep(s.db, s.db.calls + [CallRow(CallAuthorized, participants)]);
    case MoveCall(call, from, next) => MoveKeeps(s.db, call, from, next);
    case Publish(input) => PublishKeeps(s.db, input);
    case Unpublish(call, sid) => CloseKeeps(s.db, call, sid);
    case End(call) => EndKeeps(s.db, call);
    case Expire => ExpireKeeps(s.db);
    case BeginStart(w, session) => if w < |s.callers| { CallerKeeps(s, w, StartRead(s.db, session)); }
    case BeginStop(w, session) => if w < |s.callers| { CallerKeeps(s, w, StopRead(s.db, session)); }
    case Continue(w, answered) => if w < |s.callers| { ContinueKeeps(s, w, answered); }
    case Crash(w) => if w < |s.callers| { CallerKeeps(s, w, Idle); }
  }

  lemma {:induction false} ExecuteKeeps(s: System, steps: seq<Step>)
    requires SystemInv(s)
    ensures SystemInv(Execute(s, steps))
  {
    if steps != [] {
      ExecuteKeeps(s, steps[..|steps| - 1]);
      StepKeeps(Execute(s, steps[..|steps| - 1]), steps[|steps| - 1]);
    }
  }

  // ---------------------------------------------------------------- the binding invariant

  /** Every interleaving of any number of callers: a call has at most one active binding and it carries the greatest
      revision; every open session belongs to it; and there is at most one open session per call. */
  lemma OneActiveBinding(callers: nat, steps: seq<Step>, i: nat, j: nat)
    requires var db := Execute(Empty(callers), steps).db;
      i < |db.bindings| && j < |db.bindings| && db.bindings[i].call == db.bindings[j].call
    ensures var db := Execute(Empty(callers), steps).db;
      && |db.sessions| == |db.bindings|
      && (db.bindings[i].status == BindingActive ==> db.bindings[j].revision <= db.bindings[i].revision)
      && (db.bindings[i].status == BindingActive && db.bindings[j].status == BindingActive ==> i == j)
      && (Open(db.sessions[i].status) ==> db.sessions[i].binding == i && db.bindings[i].status == BindingActive)
      && (Open(db.sessions[i].status) && Open(db.sessions[j].status) ==> i == j)
  {
    ExecuteKeeps(Empty(callers), steps);
    var db := Execute(Empty(callers), steps).db;
    AlignedAt(db);
  }

  /** Publishing a track twice with the same key gives the same session and changes nothing the second time. */
  lemma RepublishIdempotent(db: Db, input: BindInput)
    requires Inv(db) && BindTrack(db, input).result.Ok?
    ensures var first := BindTrack(db, input);
      BindTrack(first.db, input) == Outcome(first.result, first.db)
  {
    var first := BindTrack(db, input).db;
    if first != db {
      assert first.tracks[|first.tracks| - 1].sid == input.sid;
      assert first.sessions[|first.sessions| - 1].key == input.key;
      assert first.bindings[|first.bindings| - 1].track == |db.tracks|;
    }
  }

  // ---------------------------------------------------------------- how statuses move

  /** A write that the transition table does not have, by the only three writers that make one. */
  predicate Bypass(step: Step, from: SessionStatus, next: SessionStatus) {
    || (step.Unpublish? && from == SessionStopping && next == SessionRevoked)
    || (step.Expire? && from == SessionStarting && next == SessionExpired)
    || (step.End? && Open(from) && next == SessionStopped)
  }

  /** What one step may do to one session. */
  ghost predicate Lawful(step: Step, before: Session, after: Session) {
    && after == before.(status := after.status)
    && (after.status != before.status ==>
          (after.status in SessionNext(before.status) || Bypass(step, before.status, after.status))
          && !Terminal(before.status)
          && (Open(after.status) ==> Open(before.status)))
  }

  lemma AdvanceLawful(db: Db, caller: Caller, answered: bool, i: nat, step: Step)
    requires Reads(caller) && i < |db.sessions|
    ensures i < |Advance(db, caller, answered).db.sessions|
    ensures Lawful(step, db.sessions[i], Advance(db, caller, answered).db.sessions[i])
  {}

  lemma PublishLawful(db: Db, input: BindInput, i: nat)
    requires i < |db.sessions|
    ensures i < |BindTrack(db, input).db.sessions|
    ensures Lawful(Publish(input), db.sessions[i], BindTrack(db, input).db.sessions[i])
  {}

  lemma UnpublishLawful(db: Db, call: nat, sid: string, i: nat)
    requires i < |db.sessions|
    ensures i < |CloseTrack(db, call, sid).db.sessions|
    ensures Lawful(Unpublish(call, sid), db.sessions[i], CloseTrack(db, call, sid).db.sessions[i])
  {}

  lemma EndLawful(db: Db, call: nat, i: nat)
    requires i < |db.sessions|
    ensures i < |EndCall(db, call).db.sessions|
    ensures Lawful(End(call), db.sessions[i], EndCall(db, call).db.sessions[i])
  {}

  lemma ExpireLawful(db: Db, i: nat)
    requires i < |db.sessions|
    ensures Lawful(Expire, db.sessions[i], ExpireSessions(db).sessions[i])
  {}

  /** Every status write is in the table or one of those three; terminal sessions are frozen, and a session that is
      no longer open never opens again. */
  lemma StatusWrites(s: System, step: Step, i: nat)
    requires SystemInv(s) && i < |s.db.sessions|
    ensures i < |Perform(s, step).db.sessions|
    ensures Lawful(step, s.db.sessions[i], Perform(s, step).db.sessions[i])
  {
    match step
    case Publish(input) => PublishLawful(s.db, input, i);
    case Unpublish(call, sid) => UnpublishLawful(s.db, call, sid, i);
    case End(call) => EndLawful(s.db, call, i);
    case Expire => ExpireLawful(s.db, i);
    case Continue(w, answered) => if w < |s.callers| { AdvanceLawful(s.db, s.callers[w], answered, i, step); }
    case _ =>
  }

  /** The three writes the table does not have, each with its guard. */
  ghost predicate BypassGuard(db: Db, step: Step, i: nat)
    requires i < |db.sessions|
  {
    match step
    case Unpublish(call, sid) =>
      db.sessions[i].status == SessionStopping && FindTrack(db.tracks, sid) == Some(i) && db.sessions[i].call == call
    case Expire => db.sessions[i].status == SessionStarting && db.sessions[i].expiresAt <= db.now
    case End(call) => Open(db.sessions[i].status) && db.sessions[i].call == call && EndCall(db, call).result.Ok?
    case _ => false
  }

  /** A step makes a write that the table does not have. */
  ghost predicate Escapes(s: System, step: Step, i: nat) {
    var s' := Perform(s, step);
    && i < |s.db.sessions| && i < |s'.db.sessions|
    && s'.db.sessions[i].status != s.db.sessions[i].status
    && s'.db.sessions[i].status !in SessionNext(s.db.sessions[i].status)
  }

  lemma UnpublishEscapes(s: System, call: nat, sid: string, i: nat)
    requires SystemInv(s) && i < |s.db.sessions|
    ensures Escapes(s, Unpublish(call, sid), i) <==> BypassGuard(s.db, Unpublish(call, sid), i)
  {
    var track := FindTrack(s.db.tracks, sid);
    AlignedAt(s.db);
    if track.Some? {
      OwnBinding(s.db, track.value);
    }
  }

  /** A status write is outside the table exactly when it is one of the three, with its guard met. */
  lemma EscapesExactly(s: System, step: Step, i: nat)
    requires SystemInv(s) && i < |s.db.sessions|
    ensures Escapes(s, step, i) <==> BypassGuard(s.db, step, i)
  {
    match step
    case Unpublish(call, sid) => UnpublishEscapes(s, call, sid, i);
    case End(call) => EndLawful(s.db, call, i);
    case Expire => ExpireLawful(s.db, i);
    case _ => StatusWrites(s, step, i);
  }

  /** Terminal session states are absorbing. */
  lemma {:induction false} TerminalForever(s: System, steps: seq<Step>, i: nat)
    requires SystemInv(s) && i < |s.db.sessions| && Terminal(s.db.sessions[i].status)
    ensures i < |Execute(s, steps).db.sessions| && Execute(s, steps).db.sessions[i] == s.db.sessions[i]
  {
    if steps != [] {
      TerminalForever(s, steps[..|steps| - 1], i);
      ExecuteKeeps(s, steps[..|steps| - 1]);
      StatusWrites(Execute(s, steps[..|steps| - 1]), steps[|steps| - 1], i);
    }
  }

  /** A session that has left the open states, even only towards STOPPING, never becomes open again. */
  lemma {:induction false} ClosedForever(s: System, steps: seq<Step>, i: nat)
    requires SystemInv(s) && i < |s.db.sessions| && !Open(s.db.sessions[i].status)
    ensures i < |Execute(s, steps).db.sessions| && !Open(Execute(s, steps).db.sessions[i].status)
  {
    if steps != [] {
      ClosedForever(s, steps[..|steps| - 1], i);
      ExecuteKeeps(s, steps[..|steps| - 1]);
      StatusWrites(Execute(s, steps[..|steps| - 1]), steps[|steps| - 1], i);
    }
  }

  /** A start that succeeds activates the session of the call's current binding. */
  lemma StartActivatesCurrent(s: System, w: nat, i: nat, j: nat)
    requires SystemInv(s) && w < |s.callers| && i < |s.db.sessions| && j < |s.db.bindings|
    requires s.db.bindings[j].call == s.db.bindings[i].call
    requires var after := Perform(s, Continue(w, true)).db.sessions;
      i < |after| && s.db.sessions[i].status != SessionActive && after[i].status == SessionActive
    ensures s.db.bindings[i].status == BindingActive && s.db.bindings[j].revision <= s.db.bindings[i].revision
  {
    StatusWrites(s, Continue(w, true), i);
    AlignedAt(s.db);
  }

  // ---------------------------------------------------------------- ending a call

  /** The call is over and nothing of it is left. */
  ghost predicate Cleared(db: Db, call: nat) {
    && call < |db.calls| && db.calls[call].status == CallEnded
    && (forall i :: 0 <= i < |db.bindings| && db.bindings[i].call == call ==> db.bindings[i].status != BindingActive)
    && forall i :: 0 <= i < |db.sessions| && db.sessions[i].call == call ==> Terminal(db.sessions[i].status)
  }

  /** The repository's endCall clears the call. */
  lemma EndClears(db: Db, call: nat)
    requires EndCall(db, call).result.Ok?
    ensures Cleared(EndCall(db, call).db, call)
  {}

  /** Nothing is added to an ended call, and its bindings and status stay as they are. */
  ghost predicate StaysEnded(before: Db, after: Db, call: nat) {
    && call < |after.calls| && after.calls[call].status == CallEnded
    && |after.bindings| >= |before.bindings| && |after.sessions| >= |before.sessions|
    && (forall i :: |before.bindings| <= i < |after.bindings| ==> after.bindings[i].call != call)
    && (forall i :: |before.sessions| <= i < |after.sessions| ==> after.sessions[i].call != call)
    && forall i :: 0 <= i < |before.bindings| ==>
         after.bindings[i].call == before.bindings[i].call
         && (after.bindings[i].status == BindingActive ==> before.bindings[i].status == BindingActive)
  }

  lemma PublishEnded(db: Db, input: BindInput, call: nat)
    requires call < |db.calls| && db.calls[call].status == CallEnded
    ensures StaysEnded(db, BindTrack(db, input).db, call)
  {}

  lemma UnpublishEnded(db: Db, c: nat, sid: string, call: nat)
    requires call < |db.calls| && db.calls[call].status == CallEnded
    ensures StaysEnded(db, CloseTrack(db, c, sid).db, call)
  {}

  lemma EndEnded(db: Db, c: nat, call: nat)
    requires call < |db.calls| && db.calls[call].status == CallEnded
    ensures StaysEnded(db, EndCall(db, c).db, call)
  {}

  lemma EndedStep(s: System, step: Step, call: nat)
    requires call < |s.db.calls| && s.db.calls[call].status == CallEnded
    ensures StaysEnded(s.db, Perform(s, step).db, call)
  {
    match step
    case Publish(input) => PublishEnded(s.db, input, call);
    case Unpublish(c, sid) => UnpublishEnded(s.db, c, sid, call);
    case End(c) => EndEnded(s.db, c, call);
    case Continue(w, answered) => if w < |s.callers| { AdvanceFrame(s.db, s.callers[w], answered); }
    case _ =>
  }

  lemma ClearedStep(s: System, step: Step, call: nat)
    requires SystemInv(s) && Cleared(s.db, call)
    ensures Cleared(Perform(s, step).db, call)
  {
    var db' := Perform(s, step).db;
    EndedStep(s, step, call);
    forall i | 0 <= i < |db'.sessions| && db'.sessions[i].call == call ensures Terminal(db'.sessions[i].status) {
      StatusWrites(s, step, i);
    }
  }

  lemma {:induction false} ClearedForever(s: System, steps: seq<Step>, call: nat)
    requires SystemInv(s) && Cleared(s.db, call)
    ensures Cleared(Execute(s, steps).db, call)
  {
    if steps != [] {
      ClearedForever(s, steps[..|steps| - 1], call);
      ExecuteKeeps(s, steps[..|steps| - 1]);
      ClearedStep(Execute(s, steps[..|steps| - 1]), steps[|steps| - 1], call);
    }
  }

  /** After the repository's endCall nothing of the call is ever active or open again. */
  lemma EndCallClearsForever(s: System, steps: seq<Step>, call: nat)
    requires SystemInv(s) && EndCall(s.db, call).result.Ok?
    ensures Cleared(Execute(Perform(s, End(call)), steps).db, call)
  {
    EndClears(s.db, call);
    StepKeeps(s, End(call));
    ClearedForever(Perform(s, End(call)), steps, call);
  }

  // The service does not call endCall: it moves the call to ENDING and later to ENDED, and leaves its bindings and
  // sessions to other events.

  /** Track ids are unique: publishing refuses to add a known one. */
  ghost predicate DistinctSids(tracks: seq<Track>) {
    forall i, j :: 0 <= i < j < |tracks| ==> tracks[i].sid != tracks[j].sid
  }

  lemma SidsPublish(db: Db, input: BindInput)
    requires DistinctSids(db.tracks)
    ensures DistinctSids(BindTrack(db, input).db.tracks) && db.tracks <= BindTrack(db, input).db.tracks
  {
    if BindTrack(db, input).db != db {
      forall i | 0 <= i < |db.tracks| ensures db.tracks[i].sid != input.sid {
        assert db.tracks[i] in db.tracks;
      }
    }
  }

  lemma SidsUnpublish(db: Db, call: nat, sid: string)
    requires DistinctSids(db.tracks)
    ensures DistinctSids(CloseTrack(db, call, sid).db.tracks) && |CloseTrack(db, call, sid).db.tracks| == |db.tracks|
    ensures forall i :: 0 <= i < |db.tracks| ==> CloseTrack(db, call, sid).db.tracks[i].sid == db.tracks[i].sid
  {}

  lemma SidsStep(s: System, step: Step)
    requires DistinctSids(s.db.tracks)
    ensures var tracks' := Perform(s, step).db.tracks;
      && DistinctSids(tracks') && |tracks'| >= |s.db.tracks|
      && forall i :: 0 <= i < |s.db.tracks| ==> tracks'[i].sid == s.db.tracks[i].sid
  {
    match step
    case Publish(input) => SidsPublish(s.db, input);
    case Unpublish(call, sid) => SidsUnpublish(s.db, call, sid);
    case Continue(w, answered) => if w < |s.callers| { AdvanceFrame(s.db, s.callers[w], answered); }
    case _ =>
  }

  lemma FindOwnTrack(tracks: seq<Track>, i: nat)
    requires DistinctSids(tracks) && i < |tracks|
    ensures FindTrack(tracks, tracks[i].sid) == Some(i)
  {
    var found := FindTrack(tracks, tracks[i].sid);
    assert tracks[i] in tracks;
  }

  /** The call is ending or over. */
  predicate Over(status: CallStatus) {
    status == CallEnding || status == CallEnded || status == CallCancelled || status == CallFailed
  }

  /** The step takes the binding off the call: its own track is unpublished, or the repository's endCall runs. */
  ghost predicate Releases(s: System, step: Step, i: nat)
    requires i < |s.db.bindings| && i < |s.db.tracks|
  {
    var call := s.db.bindings[i].call;
    step == Unpublish(call, s.db.tracks[i].sid)
    || (step == End(call) && EndCall(s.db, call).result.Ok?)
  }

  /** Nothing new of the call, which stays over. */
  ghost predicate NothingNew(before: Db, after: Db, call: nat) {
    && call < |after.calls| && Over(after.calls[call].status)
    && |after.bindings| >= |before.bindings| && |after.sessions| >= |before.sessions|
    && (forall i :: |before.bindings| <= i < |after.bindings| ==> after.bindings[i].call != call)
    && forall i :: |before.sessions| <= i < |after.sessions| ==> after.sessions[i].call != call
  }

  lemma OverPublish(db: Db, input: BindInput, call: nat)
    requires call < |db.calls| && Over(db.calls[call].status)
    ensures NothingNew(db, BindTrack(db, input).db, call)
  {}

  /** Once a call is ending nothing new binds to it or opens for it. */
  lemma OverStep(s: System, step: Step, call: nat)
    requires call < |s.db.calls| && Over(s.db.calls[call].status)
    ensures NothingNew(s.db, Perform(s, step).db, call)
  {
    match step
    case Publish(input) => OverPublish(s.db, input, call);
    case Continue(w, answered) => if w < |s.callers| { AdvanceFrame(s.db, s.callers[w], answered); }
    case _ =>
  }

  lemma UnpublishBinding(s: System, call: nat, sid: string, i: nat)
    requires SystemInv(s) && DistinctSids(s.db.tracks) && i < |s.db.bindings| && s.db.bindings[i].status == BindingActive
    ensures var db' := CloseTrack(s.db, call, sid).db;
      && i < |db'.bindings| && db'.bindings[i].call == s.db.bindings[i].call
      && (db'.bindings[i].status != BindingActive <==> call == s.db.bindings[i].call && sid == s.db.tracks[i].sid)
  {
    AlignedAt(s.db);
    FindOwnTrack(s.db.tracks, i);
    CloseReleases(s.db, call, sid);
  }

  lemma PublishBinding(db: Db, input: BindInput, i: nat)
    requires i < |db.bindings| && db.bindings[i].call < |db.calls| && Over(db.calls[db.bindings[i].call].status)
    ensures i < |BindTrack(db, input).db.bindings| && BindTrack(db, input).db.bindings[i] == db.bindings[i]
  {}

  lemma EndBinding(db: Db, call: nat, i: nat)
    requires i < |db.bindings|
    ensures var db' := EndCall(db, call).db;
      && i < |db'.bindings| && db'.bindings[i].call == db.bindings[i].call
      && (db'.bindings[i].status == BindingActive <==>
            db.bindings[i].status == BindingActive && !(call == db.bindings[i].call && EndCall(db, call).result.Ok?))
  {}

  lemma BindingStep(s: System, step: Step, i: nat)
    requires SystemInv(s) && DistinctSids(s.db.tracks) && i < |s.db.bindings| && i < |s.db.tracks|
    requires s.db.bindings[i].call < |s.db.calls| && Over(s.db.calls[s.db.bindings[i].call].status)
    ensures var db' := Perform(s, step).db;
      && i < |db'.bindings| && db'.bindings[i].call == s.db.bindings[i].call
      && (db'.bindings[i].status == BindingActive <==> s.db.bindings[i].status == BindingActive && !Releases(s, step, i))
  {
    match step
    case Publish(input) => PublishBinding(s.db, input, i);
    case End(call) => EndBinding(s.db, call, i);
    case Continue(w, answered) => if w < |s.callers| { AdvanceFrame(s.db, s.callers[w], answered); }
    case Unpublish(call, sid) =>
      if s.db.bindings[i].status == BindingActive {
        UnpublishBinding(s, call, sid, i);
      } else {
        CloseReleases(s.db, call, sid);
      }
    case _ =>
  }

  /** Some step of the run took the binding off the call. */
  ghost predicate WasReleased(s: System, steps: seq<Step>, i: nat) {
    exists k :: 0 <= k < |steps| && ReleasedAt(s, steps, k, i)
  }

  ghost predicate ReleasedAt(s: System, steps: seq<Step>, k: nat, i: nat) {
    k < |steps|
    && var t := Execute(s, steps[..k]);
       i < |t.db.bindings| && i < |t.db.tracks| && Releases(t, steps[k], i)
  }

  lemma WasReleasedSnoc(s: System, steps: seq<Step>, i: nat)
    requires steps != []
    requires var t := Execute(s, steps[..|steps| - 1]); i < |t.db.bindings| && i < |t.db.tracks|
    ensures WasReleased(s, steps, i) <==>
      WasReleased(s, steps[..|steps| - 1], i) || Releases(Execute(s, steps[..|steps| - 1]), steps[|steps| - 1], i)
  {
    var init := steps[..|steps| - 1];
    forall k | 0 <= k < |init| ensures ReleasedAt(s, init, k, i) <==> ReleasedAt(s, steps, k, i) {
      assert init[..k] == steps[..k];
    }
    if Releases(Execute(s, init), steps[|steps| - 1], i) {
      assert ReleasedAt(s, steps, |steps| - 1, i);
    }
    if WasReleased(s, init, i) {
      var k :| 0 <= k < |init| && ReleasedAt(s, init, k, i);
      assert ReleasedAt(s, steps, k, i);
    }
    if WasReleased(s, steps, i) {
      var k :| 0 <= k < |steps| && ReleasedAt(s, steps, k, i);
      if k < |init| {
        assert ReleasedAt(s, init, k, i);
      }
    }
  }

  /** In every continuation of an ending call nothing is added to it and a binding of it is active exactly as long as
      no step has released it. */
  lemma {:induction false} OverRun(s: System, steps: seq<Step>, call: nat)
    requires SystemInv(s) && DistinctSids(s.db.tracks) && call < |s.db.calls| && Over(s.db.calls[call].status)
    ensures var db' := Execute(s, steps).db;
      && DistinctSids(db'.tracks) && call < |db'.calls| && Over(db'.calls[call].status)
      && |db'.bindings| >= |s.db.bindings| && |db'.sessions| >= |s.db.sessions|
      && (forall i :: |s.db.bindings| <= i < |db'.bindings| ==> db'.bindings[i].call != call)
      && (forall i :: |s.db.sessions| <= i < |db'.sessions| ==> db'.sessions[i].call != call)
  {
    if steps != [] {
      var init, last := steps[..|steps| - 1], steps[|steps| - 1];
      OverRun(s, init, call);
      ExecuteKeeps(s, init);
      var t := Execute(s, init);
      OverStep(t, last, call);
      SidsStep(t, last);
      forall i | |s.db.sessions| <= i < |Execute(s, steps).db.sessions| ensures Execute(s, steps).db.sessions[i].call != call {
        if i < |t.db.sessions| { StatusWrites(t, last, i); }
      }
      forall i | |s.db.bindings| <= i < |Execute(s, steps).db.bindings| ensures Execute(s, steps).db.bindings[i].call != call {
        if i < |t.db.bindings| { BindingCallKept(t, last, i); }
      }
    }
  }

  lemma PublishCallKept(db: Db, input: BindInput, i: nat)
    requires i < |db.bindings|
    ensures i < |BindTrack(db, input).db.bindings| && BindTrack(db, input).db.bindings[i].call == db.bindings[i].call
  {}

  lemma BindingCallKept(s: System, step: Step, i: nat)
    requires SystemInv(s) && i < |s.db.bindings|
    ensures i < |Perform(s, step).db.bindings| && Perform(s, step).db.bindings[i].call == s.db.bindings[i].call
  {
    match step
    case Publish(input) => PublishCallKept(s.db, input, i);
    case End(call) => EndBinding(s.db, call, i);
    case Unpublish(call, sid) => CloseReleases(s.db, call, sid);
    case Continue(w, answered) => if w < |s.callers| { AdvanceFrame(s.db, s.callers[w], answered); }
    case _ =>
  }

  lemma {:induction false} BindingRun(s: System, steps: seq<Step>, i: nat)
    requires SystemInv(s) && DistinctSids(s.db.tracks) && i < |s.db.bindings|
    requires s.db.bindings[i].call < |s.db.calls| && Over(s.db.calls[s.db.bindings[i].call].status)
    ensures var db' := Execute(s, steps).db;
      && i < |db'.bindings| && i < |db'.tracks| && db'.bindings[i].call == s.db.bindings[i].call
      && (db'.bindings[i].status == BindingActive <==>
            s.db.bindings[i].status == BindingActive && !WasReleased(s, steps, i))
  {
    AlignedAt(s.db);
    if steps != [] {
      var init, last := steps[..|steps| - 1], steps[|steps| - 1];
      BindingRun(s, init, i);
      OverRun(s, init, s.db.bindings[i].call);
      ExecuteKeeps(s, init);
      BindingStep(Execute(s, init), last, i);
      WasReleasedSnoc(s, steps, i);
      StepKeeps(Execute(s, init), last);
      AlignedAt(Execute(s, steps).db);
    }
  }

  /** The session has reached a terminal state somewhere along the run. */
  ghost predicate ReachedTerminal(s: System, steps: seq<Step>, i: nat) {
    exists k :: 0 <= k <= |steps| && TerminalAt(Execute(s, steps[..k]).db, i)
  }

  ghost predicate TerminalAt(db: Db, i: nat) {
    i < |db.sessions| && Terminal(db.sessions[i].status)
  }

  lemma {:induction false} TerminalStays(s: System, steps: seq<Step>, k: nat, i: nat)
    requires SystemInv(s) && k <= |steps| && TerminalAt(Execute(s, steps[..k]).db, i)
    ensures TerminalAt(Execute(s, steps).db, i)
  {
    if k < |steps| {
      var init, last := steps[..|steps| - 1], steps[|steps| - 1];
      assert init[..k] == steps[..k];
      TerminalStays(s, init, k, i);
      ExecuteKeeps(s, init);
      StatusWrites(Execute(s, init), last, i);
    } else {
      assert steps[..k] == steps;
    }
  }

  /** From ENDING on, in every continuation: the call is cleared exactly when it is ENDED, each of its bindings that was
      still active has been released, by unpublishing its track or by the repository's endCall, and each of its sessions
      has reached a terminal state. */
  lemma EndingClearsExactly(s: System, steps: seq<Step>, call: nat)
    requires SystemInv(s) && DistinctSids(s.db.tracks) && call < |s.db.calls| && s.db.calls[call].status == CallEnding
    ensures var db' := Execute(s, steps).db;
      Cleared(db', call) <==>
        && call < |db'.calls| && db'.calls[call].status == CallEnded
        && (forall i :: 0 <= i < |s.db.bindings| && s.db.bindings[i].call == call && s.db.bindings[i].status == BindingActive
              ==> WasReleased(s, steps, i))
        && forall i :: 0 <= i < |s.db.sessions| && s.db.sessions[i].call == call ==> ReachedTerminal(s, steps, i)
  {
    var db' := Execute(s, steps).db;
    OverRun(s, steps, call);
    BindingsReleased(s, steps, call);
    SessionsTerminal(s, steps, call);
  }

  lemma BindingsReleased(s: System, steps: seq<Step>, call: nat)
    requires SystemInv(s) && DistinctSids(s.db.tracks) && call < |s.db.calls| && Over(s.db.calls[call].status)
    requires |Execute(s, steps).db.bindings| >= |s.db.bindings|
    requires forall i :: |s.db.bindings| <= i < |Execute(s, steps).db.bindings| ==> Execute(s, steps).db.bindings[i].call != call
    ensures var db' := Execute(s, steps).db;
      (forall i :: 0 <= i < |db'.bindings| && db'.bindings[i].call == call ==> db'.bindings[i].status != BindingActive)
      <==> forall i :: 0 <= i < |s.db.bindings| && s.db.bindings[i].call == call && s.db.bindings[i].status == BindingActive
             ==> WasReleased(s, steps, i)
  {
    var db' := Execute(s, steps).db;
    forall i | 0 <= i < |s.db.bindings|
      ensures db'.bindings[i].call == s.db.bindings[i].call
      ensures s.db.bindings[i].call == call ==>
        (db'.bindings[i].status == BindingActive <==>
           s.db.bindings[i].status == BindingActive && !WasReleased(s, steps, i))
    {
      if s.db.bindings[i].call == call {
        BindingRun(s, steps, i);
      } else {
        CallsKept(s, steps, i);
      }
    }
  }

  lemma {:induction false} CallsKept(s: System, steps: seq<Step>, i: nat)
    requires SystemInv(s) && i < |s.db.bindings|
    ensures var db' := Execute(s, steps).db;
      && i < |db'.bindings| && i < |db'.sessions|
      && db'.bindings[i].call == s.db.bindings[i].call && db'.sessions[i].call == s.db.bindings[i].call
  {
    AlignedAt(s.db);
    if steps != [] {
      var init := steps[..|steps| - 1];
      CallsKept(s, init, i);
      ExecuteKeeps(s, init);
      BindingCallKept(Execute(s, init), steps[|steps| - 1], i);
      StatusWrites(Execute(s, init), steps[|steps| - 1], i);
    }
  }

  lemma SessionsTerminal(s: System, steps: seq<Step>, call: nat)
    requires SystemInv(s) && |Execute(s, steps).db.sessions| >= |s.db.sessions|
    requires forall i :: |s.db.sessions| <= i < |Execute(s, steps).db.sessions| ==> Execute(s, steps).db.sessions[i].call != call
    ensures var db' := Execute(s, steps).db;
      (forall i :: 0 <= i < |db'.sessions| && db'.sessions[i].call == call ==> Terminal(db'.sessions[i].status))
      <==> forall i :: 0 <= i < |s.db.sessions| && s.db.sessions[i].call == call ==> ReachedTerminal(s, steps, i)
  {
    var db' := Execute(s, steps).db;
    AlignedAt(s.db);
    forall i | 0 <= i < |s.db.sessions|
      ensures db'.sessions[i].call == s.db.sessions[i].call
      ensures Terminal(db'.sessions[i].status) <==> ReachedTerminal(s, steps, i)
    {
      CallsKept(s, steps, i);
      TerminalReached(s, steps, i);
    }
  }

  lemma TerminalReached(s: System, steps: seq<Step>, i: nat)
    requires SystemInv(s) && i < |Execute(s, steps).db.sessions|
    ensures Terminal(Execute(s, steps).db.sessions[i].status) <==> ReachedTerminal(s, steps, i)
  {
    if Terminal(Execute(s, steps).db.sessions[i].status) {
      assert steps[..|steps|] == steps;
      assert TerminalAt(Execute(s, steps[..|steps|]).db, i);
    }
    if ReachedTerminal(s, steps, i) {
      var k :| 0 <= k <= |steps| && TerminalAt(Execute(s, steps[..k]).db, i);
      TerminalStays(s, steps, k, i);
    }
  }

  lemma ExecuteSnoc(s: System, steps: seq<Step>, step: Step)
    ensures Execute(s, steps + [step]) == Perform(Execute(s, steps), step)
  {
    assert (steps + [step])[..|steps|] == steps;
  }

  /** One call, one published track, one caller. */
  const PUBLISHED := [CreateCall({0}), Publish(BindInput(0, 0, "track", "key", 100))]

  function OneSession(now: int, call: CallStatus, session: SessionStatus): Db {
    Db(now, [CallRow(call, {0})], [Track("track", 0, 0, true)], [Binding(0, 0, 1, BindingActive)],
       [Session(0, 0, "key", session, 100)])
  }

  lemma AfterPublishing()
    ensures Execute(Empty(1), PUBLISHED) == System(OneSession(0, CallActive, SessionAuthorized), [Idle])
  {
    ExecuteSnoc(Empty(1), [], PUBLISHED[0]);
    assert [] + [PUBLISHED[0]] == [PUBLISHED[0]];
    ExecuteSnoc(Empty(1), [PUBLISHED[0]], PUBLISHED[1]);
    assert PUBLISHED == [PUBLISHED[0]] + [PUBLISHED[1]];
    assert Empty(1).callers == [Idle];
    var created := Db(0, [CallRow(CallAuthorized, {0})], [], [], []);
    assert Execute(Empty(1), [PUBLISHED[0]]) == System(created, [Idle]);
    assert MaximumRevision(created.bindings, 0) == 0;
    assert UpdateBindings([], 0, BindingSuperseded) == [];
    assert NewBinding(created, PUBLISHED[1].input).bindings == [Binding(0, 0, 1, BindingActive)];
    assert NewBinding(created, PUBLISHED[1].input).sessions == [Session(0, 0, "key", SessionAuthorized, 100)];
  }

  /** The failing case: a call is reached that is ENDING with an active binding and an open session; the service ends it,
      nothing releases the binding, and it stays uncleared. */
  lemma EndedCallCanStayOpen() returns (ending: seq<Step>, rest: seq<Step>)
    ensures var s := Execute(Empty(1), ending);
      var db := Execute(s, rest).db;
      && SystemInv(s) && DistinctSids(s.db.tracks)
      && |s.db.calls| == |s.db.bindings| == |s.db.tracks| == 1 && s.db.calls[0].status == CallEnding
      && s.db.bindings[0].call == 0 && s.db.bindings[0].status == BindingActive
      && |db.calls| == 1 && db.calls[0].status == CallEnded
      && |db.sessions| == 1 && db.sessions[0].call == 0 && Open(db.sessions[0].status)
      && !WasReleased(s, rest, 0) && !Cleared(db, 0)
  {
    AfterPublishing();
    ExecuteSnoc(Empty(1), PUBLISHED, MoveCall(0, CallActive, CallEnding));
    ending := PUBLISHED + [MoveCall(0, CallActive, CallEnding)];
    ExecuteKeeps(Empty(1), ending);
    var s := Execute(Empty(1), ending);
    assert s.db == OneSession(0, CallEnding, SessionAuthorized);
    ExecuteSnoc(s, [], MoveCall(0, CallEnding, CallEnded));
    rest := [] + [MoveCall(0, CallEnding, CallEnded)];
    assert Execute(s, rest).db == OneSession(0, CallEnded, SessionAuthorized);
    assert forall k :: 0 <= k < |rest| ==> rest[k].MoveCall?;
    EndingClearsExactly(s, rest, 0);
  }

  /** The caller takes the session from AUTHORIZED to STARTING. */
  lemma AfterClaiming() returns (steps: seq<Step>)
    ensures Execute(Empty(1), steps) == System(OneSession(0, CallActive, SessionStarting), [StartCalling(0)])
  {
    AfterPublishing();
    ExecuteSnoc(Empty(1), PUBLISHED, BeginStart(0, 0));
    steps := PUBLISHED + [BeginStart(0, 0)];
    assert [Idle][0 := StartFound(0, SessionAuthorized)] == [StartFound(0, SessionAuthorized)];
    assert Execute(Empty(1), steps) == System(OneSession(0, CallActive, SessionAuthorized), [StartFound(0, SessionAuthorized)]);
    ExecuteSnoc(Empty(1), steps, Continue(0, true));
    steps := steps + [Continue(0, true)];
    assert [StartFound(0, SessionAuthorized)][0 := StartCalling(0)] == [StartCalling(0)];
    var before := OneSession(0, CallActive, SessionAuthorized).sessions;
    assert before[0 := before[0].(status := SessionStarting)] == OneSession(0, CallActive, SessionStarting).sessions;
  }

  /** The caller takes it on to ACTIVE and then to STOPPING. */
  lemma AfterAnnouncing() returns (steps: seq<Step>)
    ensures Execute(Empty(1), steps) == System(OneSession(0, CallActive, SessionStopping), [StopCalling(0)])
  {
    steps := AfterClaiming();
    var starting := OneSession(0, CallActive, SessionStarting).sessions;
    var active := OneSession(0, CallActive, SessionActive).sessions;
    var stopping := OneSession(0, CallActive, SessionStopping).sessions;
    assert starting[0 := starting[0].(status := SessionActive)] == active;
    assert active[0 := active[0].(status := SessionStopping)] == stopping;
    assert [StartCalling(0)][0 := Idle] == [Idle];
    ExecuteSnoc(Empty(1), steps, Continue(0, true));
    steps := steps + [Continue(0, true)];
    assert Execute(Empty(1), steps) == System(OneSession(0, CallActive, SessionActive), [Idle]);
    assert [Idle][0 := StopFound(0, SessionActive)] == [StopFound(0, SessionActive)];
    ExecuteSnoc(Empty(1), steps, BeginStop(0, 0));
    steps := steps + [BeginStop(0, 0)];
    assert Execute(Empty(1), steps) == System(OneSession(0, CallActive, SessionActive), [StopFound(0, SessionActive)]);
    assert [StopFound(0, SessionActive)][0 := StopCalling(0)] == [StopCalling(0)];
    ExecuteSnoc(Empty(1), steps, Continue(0, true));
    steps := steps + [Continue(0, true)];
  }

  lemma OneSessionEscapes(callers: seq<Caller>)
    ensures Escapes(System(OneSession(100, CallActive, SessionStarting), callers), Expire, 0)
    ensures Escapes(System(OneSession(0, CallActive, SessionAuthorized), callers), End(0), 0)
    ensures Escapes(System(OneSession(0, CallActive, SessionStopping), callers), Unpublish(0, "track"), 0)
  {
    var starting := System(OneSession(100, CallActive, SessionStarting), callers);
    assert Perform(starting, Expire).db.sessions[0].status == SessionExpired;
    var authorized := System(OneSession(0, CallActive, SessionAuthorized), callers);
    assert Perform(authorized, End(0)).db.sessions[0].status == SessionStopped;
    var db := OneSession(0, CallActive, SessionStopping);
    assert db.tracks[|db.tracks| - 1].sid == "track";
    assert FindTrack(db.tracks, "track") == Some(0);
    assert FindBinding(db.bindings, 0) == Some(0);
    assert Perform(System(db, callers), Unpublish(0, "track")).db.sessions[0].status == SessionRevoked;
  }

  /** All three bypasses of the transition table happen: expiry of a starting session, ending a call with an open
      session, and unpublishing a track whose session is stopping. */
  lemma TableIsBypassed() returns (starting: seq<Step>, stopping: seq<Step>)
    ensures Escapes(Execute(Empty(1), starting), Expire, 0)
    ensures Escapes(Execute(Empty(1), PUBLISHED), End(0), 0)
    ensures Escapes(Execute(Empty(1), stopping), Unpublish(0, "track"), 0)
  {
    starting := AfterClaiming();
    ExecuteSnoc(Empty(1), starting, Tick(100));
    starting := starting + [Tick(100)];
    OneSessionEscapes([StartCalling(0)]);
    stopping := AfterAnnouncing();
    OneSessionEscapes([StopCalling(0)]);
    AfterPublishing();
    OneSessionEscapes([Idle]);
  }
}

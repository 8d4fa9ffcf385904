/**
 The call repository and the analysis service as they update their tables step by step. Each transaction is proved to
 be the step of the interleaving model, and each undisturbed start and stop to be a run of it.
 */
module CallRepository {
  import opened Wrappers
  import opened CallBinding
  import Runs = CallBindingRuns

  class CallTables {
    var now: int
    var calls: seq<CallRow>
    var tracks: seq<Track>
    var bindings: seq<Binding>
    var sessions: seq<Session>

    constructor ()
      ensures Contents() == Empty(0).db
    {
      now, calls, tracks, bindings, sessions := 0, [], [], [], [];
    }

    ghost function Contents(): Db
      reads this
    {
      Db(now, calls, tracks, bindings, sessions)
    }

    method UpdateManySessions(which: Session -> bool, next: SessionStatus)
      modifies `sessions
      ensures sessions == UpdateSessions(old(sessions), which, next)
    {
      for i := 0 to |sessions|
        invariant |sessions| == |old(sessions)|
        invariant forall j :: 0 <= j < i ==> sessions[j] == UpdateSessions(old(sessions), which, next)[j]
        invariant forall j :: i <= j < |sessions| ==> sessions[j] == old(sessions)[j]
      {
        if which(sessions[i]) {
          sessions := sessions[i := sessions[i].(status := next)];
        }
      }
    }

    method UpdateManyBindings(call: nat, next: BindingStatus)
      modifies `bindings
      ensures bindings == UpdateBindings(old(bindings), call, next)
    {
      for i := 0 to |bindings|
        invariant |bindings| == |old(bindings)|
        invariant forall j :: 0 <= j < i ==> bindings[j] == UpdateBindings(old(bindings), call, next)[j]
        invariant forall j :: i <= j < |bindings| ==> bindings[j] == old(bindings)[j]
      {
        if bindings[i].call == call && bindings[i].status == BindingActive {
          bindings := bindings[i := bindings[i].(status := next)];
        }
      }
    }

    method BindTrackAndCreateAnalysis(input: BindInput) returns (result: Result<nat, string>)
      modifies this
      ensures Outcome(result, Contents()) == BindTrack(old(Contents()), input)
    {
      if input.expiresAt <= now {
        return Err(NOT_FOUND);
      }
      if input.call >= |calls| || input.participant !in calls[input.call].participants {
        return Err(NOT_FOUND);
      }
      if calls[input.call].status != CallAuthorized && calls[input.call].status != CallActive {
        return Err(NOT_FOUND);
      }
      var existingTrack := FindTrack(tracks, input.sid);
      if existingTrack.Some? {
        result := ReplayBinding(Db(now, calls, tracks, bindings, sessions), input, existingTrack.value).result;
        return;
      }
      if FindSession(sessions, input.key).Some? {
        return Err(UNIQUE_VIOLATION);  // the insert of the session fails and everything rolls back
      }
      result := Ok(|sessions|);
      CreateBinding(input);
    }

    /** Supersede what is there, then create track, binding and session. */
    method CreateBinding(input: BindInput)
      requires input.call < |calls|
      modifies this
      ensures Contents() == NewBinding(old(Contents()), input)
    {
      var revision := MaximumRevision(bindings, input.call) + 1;
      UpdateManyBindings(input.call, BindingSuperseded);
      UpdateManySessions((s: Session) => s.call == input.call && Open(s.status), SessionRevoked);
      var mediaTrack, binding := |tracks|, |bindings|;
      tracks := tracks + [Track(input.sid, input.call, input.participant, true)];
      bindings := bindings + [Binding(input.call, mediaTrack, revision, BindingActive)];
      sessions := sessions + [Session(input.call, binding, input.key, SessionAuthorized, input.expiresAt)];
      calls := calls[input.call := calls[input.call].(status := CallActive)];
    }

    method CloseVerifiedTrack(call: nat, sid: string) returns (result: Result<nat, string>)
      modifies this
      ensures Outcome(result, Contents()) == CloseTrack(old(Contents()), call, sid)
    {
      var track := FindTrack(tracks, sid);
      if track.None? || tracks[track.value].call != call {
        return Err(NOT_FOUND);
      }
      var binding := FindBinding(bindings, track.value);
      tracks := tracks[track.value := tracks[track.value].(published := false)];
      if binding.Some? {
        if bindings[binding.value].status == BindingActive {
          bindings := bindings[binding.value := bindings[binding.value].(status := BindingRevoked)];
        }
        UpdateManySessions((s: Session) => s.binding == binding.value && !Terminal(s.status), SessionRevoked);
      }
      result := Ok(track.value);
    }

    method EndCallNow(call: nat) returns (result: Result<nat, string>)
      modifies this
      ensures Outcome(result, Contents()) == EndCall(old(Contents()), call)
    {
      if call >= |calls| {
        return Err(NOT_FOUND);
      }
      var status := calls[call].status;
      if status != CallAuthorized && status != CallActive && status != CallEnding {
        return Err(NOT_FOUND);
      }
      calls := calls[call := calls[call].(status := CallEnded)];
      UpdateManyBindings(call, BindingRevoked);
      UpdateManySessions((s: Session) => s.call == call && !Terminal(s.status), SessionStopped);
      result := Ok(call);
    }

    method ExpireStaleSessions()
      modifies `sessions
      ensures Contents() == ExpireSessions(old(Contents()))
    {
      var due := now;
      UpdateManySessions((s: Session) => s.expiresAt <= due && Open(s.status), SessionExpired);
    }

    method TransitionAnalysisSession(session: nat, expected: SessionStatus, next: SessionStatus)
      returns (result: Result<nat, string>)
      modifies `sessions
      ensures Outcome(result, Contents()) == TransitionSession(old(Contents()), session, expected, next)
    {
      if session >= |sessions| {
        return Err(PERSISTENCE_CONFLICT);
      }
      if sessions[session].status == expected {
        sessions := sessions[session := sessions[session].(status := next)];
        return Ok(session);
      }
      result := if sessions[session].status == next then Ok(session) else Err(PERSISTENCE_CONFLICT);
    }
  }

  /** What an undisturbed start or stop amounts to in the model. */
  ghost function Alone(db: Db, begin: Step, first: bool, second: bool): Db {
    Execute(System(db, [Idle]), [begin, Continue(0, first), Continue(0, second)]).db
  }

  lemma AloneUnfolds(db: Db, begin: Step, first: bool, second: bool)
    requires begin.BeginStart? || begin.BeginStop?
    requires begin.w == 0
    ensures var caller := if begin.BeginStart? then StartRead(db, begin.session) else StopRead(db, begin.session);
      var claimed := Advance(db, caller, first);
      Alone(db, begin, first, second) == Advance(claimed.db, claimed.caller, second).db
  {
    var s := System(db, [Idle]);
    Runs.ExecuteSnoc(s, [], begin);
    assert [] + [begin] == [begin];
    Runs.ExecuteSnoc(s, [begin], Continue(0, first));
    assert [begin] + [Continue(0, first)] == [begin, Continue(0, first)];
    Runs.ExecuteSnoc(s, [begin, Continue(0, first)], Continue(0, second));
    assert [begin, Continue(0, first)] + [Continue(0, second)] == [begin, Continue(0, first), Continue(0, second)];
  }

  class AnalysisService {
    const calls: CallTables

    constructor (calls: CallTables)
      ensures this.calls == calls
    {
      this.calls := calls;
    }

    /** `voiceprintActive` is the answer of the voiceprint table, `answered` that of the provider. */
    method Start(session: nat, voiceprintActive: bool, answered: bool) returns (active: bool)
      requires session < |calls.sessions|
      modifies calls`sessions
      ensures calls.Contents() == Alone(old(calls.Contents()), BeginStart(0, session), voiceprintActive, answered)
      ensures |calls.sessions| == |old(calls.sessions)|
      ensures active <==> calls.sessions[session].status == SessionActive
    {
      AloneUnfolds(calls.Contents(), BeginStart(0, session), voiceprintActive, answered);
      var grant := calls.sessions[session];
      if grant.status == SessionActive {
        return true;
      }
      if grant.status != SessionAuthorized && grant.status != SessionStarting {
        return false;
      }
      var result;
      if grant.expiresAt <= calls.now {
        if SessionExpired in SessionNext(grant.status) {
          result := calls.TransitionAnalysisSession(session, grant.status, SessionExpired);
        }
        return false;
      }
      if !voiceprintActive {
        result := calls.TransitionAnalysisSession(session, grant.status, SessionRevoked);
        return false;
      }
      if grant.status == SessionAuthorized {
        result := calls.TransitionAnalysisSession(session, SessionAuthorized, SessionStarting);
      }
      if !answered {
        return false;
      }
      result := calls.TransitionAnalysisSession(session, SessionStarting, SessionActive);
      active := true;
    }

    method Stop(session: nat, answered: bool) returns (stopped: bool)
      requires session < |calls.sessions|
      modifies calls`sessions
      ensures calls.Contents() == Alone(old(calls.Contents()), BeginStop(0, session), true, answered)
      ensures |calls.sessions| == |old(calls.sessions)|
      ensures stopped ==> Terminal(calls.sessions[session].status)
    {
      AloneUnfolds(calls.Contents(), BeginStop(0, session), true, answered);
      var grant := calls.sessions[session];
      if grant.status == SessionStopped {
        return true;
      }
      var result;
      if grant.status == SessionAuthorized || grant.status == SessionStarting {
        result := calls.TransitionAnalysisSession(session, grant.status, SessionRevoked);
        return true;
      }
      if grant.status != SessionActive && grant.status != SessionDegraded && grant.status != SessionStopping {
        return false;
      }
      if grant.status != SessionStopping {
        result := calls.TransitionAnalysisSession(session, grant.status, SessionStopping);
      }
      if !answered {
        return false;
      }
      result := calls.TransitionAnalysisSession(session, SessionStopping, SessionStopped);
      stopped := true;
    }
  }
}

/**
 Calls, track bindings and analysis sessions of one organisation. A serializable transaction is one step and so is a
 guarded update; starting and stopping a session take several steps around a provider call and interleave with
 everything else. Rows are named by their position: the n-th binding belongs to the n-th track and session.
 */
module CallBinding {
  import opened Wrappers

  datatype CallStatus = CallRequested | CallAuthorized | CallActive | CallEnding | CallEnded | CallCancelled | CallFailed

  datatype BindingStatus = BindingActive | BindingSuperseded | BindingRevoked

  datatype SessionStatus =
    | SessionAuthorized | SessionStarting | SessionActive | SessionDegraded | SessionStopping
    | SessionStopped | SessionFailed | SessionExpired | SessionRevoked

  datatype CallRow = CallRow(status: CallStatus, participants: set<nat>)

  datatype Track = Track(sid: string, call: nat, participant: nat, published: bool)

  datatype Binding = Binding(call: nat, track: nat, revision: nat, status: BindingStatus)

  datatype Session = Session(call: nat, binding: nat, key: string, status: SessionStatus, expiresAt: int)

  datatype Db = Db(now: int, calls: seq<CallRow>, tracks: seq<Track>, bindings: seq<Binding>, sessions: seq<Session>)

  // ---------------------------------------------------------------- the transition tables

  function CallNext(s: CallStatus): set<CallStatus> {
    match s
    case CallRequested => {CallAuthorized, CallCancelled, CallFailed}
    case CallAuthorized => {CallActive, CallCancelled, CallFailed}
    case CallActive => {CallEnding, CallFailed}
    case CallEnding => {CallEnded, CallFailed}
    case _ => {}
  }

  function SessionNext(s: SessionStatus): set<SessionStatus> {
    match s
    case SessionAuthorized => {SessionStarting, SessionRevoked, SessionExpired}
    case SessionStarting => {SessionActive, SessionFailed, SessionRevoked}
    case SessionActive => {SessionDegraded, SessionStopping, SessionFailed, SessionExpired, SessionRevoked}
    case SessionDegraded => {SessionActive, SessionStopping, SessionFailed, SessionExpired, SessionRevoked}
    case SessionStopping => {SessionStopped, SessionFailed}
    case _ => {}
  }

  predicate Open(s: SessionStatus) {
    s == SessionAuthorized || s == SessionStarting || s == SessionActive || s == SessionDegraded
  }

  predicate Terminal(s: SessionStatus) {
    !Open(s) && s != SessionStopping
  }

  // ---------------------------------------------------------------- transactions

  /** An update of every session that matches. */
  function UpdateSessions(sessions: seq<Session>, which: Session -> bool, next: SessionStatus): (r: seq<Session>)
    ensures |r| == |sessions|
    ensures forall i :: 0 <= i < |sessions| ==>
      r[i] == if which(sessions[i]) then sessions[i].(status := next) else sessions[i]
  {
    seq(|sessions|, i requires 0 <= i < |sessions| =>
      if which(sessions[i]) then sessions[i].(status := next) else sessions[i])
  }

  function UpdateBindings(bindings: seq<Binding>, call: nat, next: BindingStatus): (r: seq<Binding>)
    ensures |r| == |bindings|
    ensures forall i :: 0 <= i < |bindings| ==>
      r[i] == if bindings[i].call == call && bindings[i].status == BindingActive
              then bindings[i].(status := next) else bindings[i]
  {
    seq(|bindings|, i requires 0 <= i < |bindings| =>
      if bindings[i].call == call && bindings[i].status == BindingActive
      then bindings[i].(status := next) else bindings[i])
  }

  function FindTrack(tracks: seq<Track>, sid: string): (r: Option<nat>)
    ensures r.Some? ==> r.value < |tracks| && tracks[r.value].sid == sid
    ensures r.None? ==> forall t :: t in tracks ==> t.sid != sid
  {
    if tracks == [] then None
    else if tracks[|tracks| - 1].sid == sid then Some(|tracks| - 1)
    else FindTrack(tracks[..|tracks| - 1], sid)
  }

  function FindSession(sessions: seq<Session>, key: string): (r: Option<nat>)
    ensures r.Some? ==> r.value < |sessions| && sessions[r.value].key == key
    ensures r.None? ==> forall s :: s in sessions ==> s.key != key
  {
    if sessions == [] then None
    else if sessions[|sessions| - 1].key == key then Some(|sessions| - 1)
    else FindSession(sessions[..|sessions| - 1], key)
  }

  /** The binding of a track; a track has at most one. */
  function FindBinding(bindings: seq<Binding>, track: nat): (r: Option<nat>)
    ensures r.Some? ==> r.value < |bindings| && bindings[r.value].track == track
    ensures r.None? ==> forall b :: b in bindings ==> b.track != track
  {
    if bindings == [] then None
    else if bindings[|bindings| - 1].track == track then Some(|bindings| - 1)
    else FindBinding(bindings[..|bindings| - 1], track)
  }

  function MaximumRevision(bindings: seq<Binding>, call: nat): (m: nat)
    ensures forall b :: b in bindings && b.call == call ==> b.revision <= m
  {
    if bindings == [] then 0
    else
      var m, last := MaximumRevision(bindings[..|bindings| - 1], call), bindings[|bindings| - 1];
      if last.call == call && last.revision > m then last.revision else m
  }

  datatype BindInput = BindInput(call: nat, participant: nat, sid: string, key: string, expiresAt: int)

  datatype Outcome<+T> = Outcome(result: Result<T, string>, db: Db)

  const NOT_FOUND := "TENANT_RESOURCE_NOT_FOUND"
  const IDEMPOTENCY_CONFLICT := "IDEMPOTENCY_CONFLICT"
  const PERSISTENCE_CONFLICT := "PERSISTENCE_CONFLICT"
  const UNIQUE_VIOLATION := "P2002"

  function BindTrack(db: Db, input: BindInput): Outcome<nat> {
    if input.expiresAt <= db.now then Outcome(Err(NOT_FOUND), db)
    else if input.call >= |db.calls| || input.participant !in db.calls[input.call].participants
         || (db.calls[input.call].status != CallAuthorized && db.calls[input.call].status != CallActive)
    then Outcome(Err(NOT_FOUND), db)
    else
      var existing := FindTrack(db.tracks, input.sid);
      if existing.Some? then ReplayBinding(db, input, existing.value)
      else if FindSession(db.sessions, input.key).Some? then Outcome(Err(UNIQUE_VIOLATION), db)
      else Outcome(Ok(|db.sessions|), NewBinding(db, input))
  }

  /** A track that is already known must come with its own session. */
  function ReplayBinding(db: Db, input: BindInput, track: nat): Outcome<nat>
    requires track < |db.tracks|
  {
    var binding, session := FindBinding(db.bindings, track), FindSession(db.sessions, input.key);
    if db.tracks[track].call != input.call || db.tracks[track].participant != input.participant
       || binding.None? || session.None? || db.sessions[session.value].binding != binding.value
    then Outcome(Err(IDEMPOTENCY_CONFLICT), db)
    else Outcome(Ok(session.value), db)
  }

  function NewBinding(db: Db, input: BindInput): Db
    requires input.call < |db.calls|
  {
    Db(db.now,
       db.calls[input.call := db.calls[input.call].(status := CallActive)],
       db.tracks + [Track(input.sid, input.call, input.participant, true)],
       UpdateBindings(db.bindings, input.call, BindingSuperseded)
       + [Binding(input.call, |db.tracks|, MaximumRevision(db.bindings, input.call) + 1, BindingActive)],
       UpdateSessions(db.sessions, (s: Session) => s.call == input.call && Open(s.status), SessionRevoked)
       + [Session(input.call, |db.bindings|, input.key, SessionAuthorized, input.expiresAt)])
  }

  function CloseTrack(db: Db, call: nat, sid: string): Outcome<nat> {
    var track := FindTrack(db.tracks, sid);
    if track.None? || db.tracks[track.value].call != call then Outcome(Err(NOT_FOUND), db)
    else
      var binding := FindBinding(db.bindings, track.value);
      var closed := db.(tracks := db.tracks[track.value := db.tracks[track.value].(published := false)]);
      if binding.None? then Outcome(Ok(track.value), closed)
      else
        var b := db.bindings[binding.value];
        Outcome(Ok(track.value), closed.(
          bindings := if b.status == BindingActive
                      then db.bindings[binding.value := b.(status := BindingRevoked)] else db.bindings,
          sessions := UpdateSessions(db.sessions,
                                     (s: Session) => s.binding == binding.value && !Terminal(s.status), SessionRevoked)))
  }

  function EndCall(db: Db, call: nat): Outcome<nat> {
    if call >= |db.calls|
       || (db.calls[call].status != CallAuthorized && db.calls[call].status != CallActive && db.calls[call].status != CallEnding)
    then Outcome(Err(NOT_FOUND), db)
    else Outcome(Ok(call), db.(
      calls := db.calls[call := db.calls[call].(status := CallEnded)],
      bindings := UpdateBindings(db.bindings, call, BindingRevoked),
      sessions := UpdateSessions(db.sessions, (s: Session) => s.call == call && !Terminal(s.status), SessionStopped)))
  }

  /** The guarded update of a session; a lost race is fine when the session is where it was to go. */
  function TransitionSession(db: Db, session: nat, expected: SessionStatus, next: SessionStatus): Outcome<nat> {
    if session >= |db.sessions| then Outcome(Err(PERSISTENCE_CONFLICT), db)
    else if db.sessions[session].status == expected
    then Outcome(Ok(session), db.(sessions := db.sessions[session := db.sessions[session].(status := next)]))
    else if db.sessions[session].status == next then Outcome(Ok(session), db)
    else Outcome(Err(PERSISTENCE_CONFLICT), db)
  }

  function TransitionCall(db: Db, call: nat, expected: CallStatus, next: CallStatus): Outcome<nat> {
    if call >= |db.calls| then Outcome(Err(PERSISTENCE_CONFLICT), db)
    else if db.calls[call].status == expected
    then Outcome(Ok(call), db.(calls := db.calls[call := db.calls[call].(status := next)]))
    else if db.calls[call].status == next then Outcome(Ok(call), db)
    else Outcome(Err(PERSISTENCE_CONFLICT), db)
  }

  /** The sessions part of the expiry job. */
  function ExpireSessions(db: Db): Db {
    db.(sessions := UpdateSessions(db.sessions, (s: Session) => s.expiresAt <= db.now && Open(s.status), SessionExpired))
  }

  // ---------------------------------------------------------------- callers that take several steps

  /** Where a caller of start or stop is, and the status it has read. */
  datatype Caller =
    | Idle
    | StartFound(session: nat, status: SessionStatus)
    | StartCalling(session: nat)
    | StopFound(session: nat, status: SessionStatus)
    | StopCalling(session: nat)

  datatype Moved = Moved(caller: Caller, db: Db)

  /** start: read the session. */
  function StartRead(db: Db, session: nat): Caller {
    if session < |db.sessions|
       && (db.sessions[session].status == SessionAuthorized || db.sessions[session].status == SessionStarting)
    then StartFound(session, db.sessions[session].status) else Idle
  }

  /** start: everything up to the provider call. Expiring a session that is already starting is not in the table, so
      the check throws. `voiceprintActive` says whether the session's voiceprint, if it has one, is still active. */
  function StartClaim(db: Db, session: nat, status: SessionStatus, voiceprintActive: bool): Moved {
    if session >= |db.sessions| then Moved(Idle, db)
    else if db.sessions[session].expiresAt <= db.now then
      Moved(Idle, if SessionExpired in SessionNext(status)
                  then TransitionSession(db, session, status, SessionExpired).db else db)
    else if !voiceprintActive then Moved(Idle, TransitionSession(db, session, status, SessionRevoked).db)
    else if status == SessionAuthorized then
      var claimed := TransitionSession(db, session, SessionAuthorized, SessionStarting);
      Moved(if claimed.result.Ok? then StartCalling(session) else Idle, claimed.db)
    else Moved(StartCalling(session), db)
  }

  /** start: the provider has answered, or not. */
  function StartFinish(db: Db, session: nat, answered: bool): Moved {
    Moved(Idle, if answered then TransitionSession(db, session, SessionStarting, SessionActive).db else db)
  }

  /** stop: read the session. */
  function StopRead(db: Db, session: nat): Caller {
    if session < |db.sessions| && !Terminal(db.sessions[session].status)
    then StopFound(session, db.sessions[session].status) else Idle
  }

  /** stop: revoke what has not started, otherwise announce the stop. */
  function StopClaim(db: Db, session: nat, status: SessionStatus): Moved {
    if status == SessionAuthorized || status == SessionStarting then
      Moved(Idle, TransitionSession(db, session, status, SessionRevoked).db)
    else if status == SessionStopping then Moved(StopCalling(session), db)
    else
      var claimed := TransitionSession(db, session, status, SessionStopping);
      Moved(if claimed.result.Ok? then StopCalling(session) else Idle, claimed.db)
  }

  function StopFinish(db: Db, session: nat, answered: bool): Moved {
    Moved(Idle, if answered then TransitionSession(db, session, SessionStopping, SessionStopped).db else db)
  }

  datatype System = System(db: Db, callers: seq<Caller>)

  datatype Step =
    | Tick(elapsed: nat)
    | CreateCall(participants: set<nat>)
    | MoveCall(call: nat, from: CallStatus, next: CallStatus)
    | Publish(input: BindInput)
    | Unpublish(call: nat, sid: string)
    | End(call: nat)
    | Expire
    | BeginStart(w: nat, session: nat)
    | BeginStop(w: nat, session: nat)
    | Continue(w: nat, answered: bool)
    | Crash(w: nat)

  /** The next step of a caller; `answered` is the answer of the voiceprint table or of the provider. */
  function Advance(db: Db, caller: Caller, answered: bool): Moved {
    match caller
    case Idle => Moved(Idle, db)
    case StartFound(session, status) => StartClaim(db, session, status, answered)
    case StartCalling(session) => StartFinish(db, session, answered)
    case StopFound(session, status) => StopClaim(db, session, status)
    case StopCalling(session) => StopFinish(db, session, answered)
  }

  function Perform(s: System, step: Step): System {
    match step
    case Tick(elapsed) => s.(db := s.db.(now := s.db.now + elapsed))
    case CreateCall(participants) => s.(db := s.db.(calls := s.db.calls + [CallRow(CallAuthorized, participants)]))
    case MoveCall(call, from, next) =>
      if next in CallNext(from) then s.(db := TransitionCall(s.db, call, from, next).db) else s
    case Publish(input) => s.(db := BindTrack(s.db, input).db)
    case Unpublish(call, sid) => s.(db := CloseTrack(s.db, call, sid).db)
    case End(call) => s.(db := EndCall(s.db, call).db)
    case Expire => s.(db := ExpireSessions(s.db))
    case BeginStart(w, session) =>
      if w < |s.callers| && s.callers[w].Idle? then s.(callers := s.callers[w := StartRead(s.db, session)]) else s
    case BeginStop(w, session) =>
      if w < |s.callers| && s.callers[w].Idle? then s.(callers := s.callers[w := StopRead(s.db, session)]) else s
    case Continue(w, answered) =>
      if w < |s.callers| then
        var moved := Advance(s.db, s.callers[w], answered);
        System(moved.db, s.callers[w := moved.caller])
      else s
    case Crash(w) => if w < |s.callers| then s.(callers := s.callers[w := Idle]) else s
  }

  function Execute(s: System, steps: seq<Step>): System {
    if steps == [] then s else Perform(Execute(s, steps[..|steps| - 1]), steps[|steps| - 1])
  }

  function Empty(callers: nat): System {
    System(Db(0, [], [], [], []), seq(callers, _ => Idle))
  }
}

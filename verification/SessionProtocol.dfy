/**
 The media session protocol of media/proxy/session.py, as transitions between values.

 A state holds the records the manager keeps, its `(source, mode)` index, and what surrounds them:
 every child ever spawned (how far its pipe has been read, whether it has been waited on) and every
 reader ever handed out.  Each function below is one section the source runs under its lock, or a
 composition of such sections.
 */
module SessionProtocol {
  import opened Wrappers
  import opened PlaybackPolicy

  type Id = nat

  /** The parts of a playback decision that `create` and `build_argv` look at. */
  datatype Decision = Decision(
    mode: PlaybackMode, encodesAudio: bool, trackChosen: bool, remuxNoted: bool, videoFound: bool)

  /** What comes of a command the decision allows: ffmpeg may be missing, the finished command may touch the video. */
  datatype Build = Built | NoBinary | NotACopy

  /** What `create` learns from its surroundings: whether the source's address is allowed, and that. */
  datatype Checks = Checks(source: bool, build: Build)

  datatype SessionMode = DirectMode | AudioTranscodeMode | RemuxMode

  datatype SessionState = Created | Running | Stopping | Stopped | Failed

  datatype StopReason = Requested | Idle | ChildExited | ShutDown | StartError

  type Key = (string, SessionMode)

  datatype Rec = Rec(
    source: string,
    mode: SessionMode,
    state: SessionState,
    process: Option<nat>,
    clients: nat,
    served: bool,
    owner: Option<string>,
    lastSeen: int,
    stoppedAt: Option<int>,
    reason: Option<StopReason>)

  /** A spawned child: how many bytes of its one pipe have been taken, and whether it was waited on. */
  datatype Child = Child(pos: nat, waited: bool)

  /** A reader's handle.  `Abandoned` is a relay generator that ended without running its `finally`. */
  datatype Phase = Unstarted | Reading(child: nat) | Closed | Abandoned

  datatype Reader = Reader(session: Id, direct: bool, phase: Phase)

  datatype State = State(
    sessions: map<Id, Rec>,
    bySource: map<Key, Id>,
    children: seq<Child>,
    readers: seq<Reader>,
    issued: set<Id>)

  datatype Error =
    | SourceRefused | SourceUnsupported | ModeMismatch | FFmpegMissing | VideoCopyViolation
    | NotFound | SessionIsDirect | SessionStopped | StartFailed

  datatype Outcome = Returned(handle: nat) | Raised(error: Error)

  const InitialState := State(map[], map[], [], [], {})

  predicate Live(state: SessionState) { state == Created || state == Running }

  function KeyOf(rec: Rec): Key { (rec.source, rec.mode) }

  // ------------------------------------------------------------------ create

  /** How a source is played once chosen: advice against it is not a refusal. */
  function ModeWhenChosen(d: Decision): PlaybackMode {
    if d.mode != FallbackSourcePreferred then d.mode
    else if d.encodesAudio then DirectWithAudioTranscode
    else if d.remuxNoted then Remux
    else Direct
  }

  function SessionModeFor(mode: PlaybackMode): SessionMode {
    match mode
    case DirectWithAudioTranscode => AudioTranscodeMode
    case Remux => RemuxMode
    case _ => DirectMode
  }

  /** `build_argv` has a command for the decision; it is handed the decision as it was made. */
  predicate HasCommand(d: Decision) {
    && d.videoFound
    && (d.mode == Remux || (d.mode == DirectWithAudioTranscode && d.encodesAudio && d.trackChosen))
  }

  /** Why `build_argv` raises, if it does. */
  function Refusal(d: Decision, build: Build): Option<Error> {
    if !HasCommand(d) then Some(ModeMismatch)
    else match build
      case Built => None
      case NoBinary => Some(FFmpegMissing)
      case NotACopy => Some(VideoCopyViolation)
  }

  function WithRec(s: State, id: Id, rec: Rec): State { s.(sessions := s.sessions[id := rec]) }

  function NewRec(source: string, mode: SessionMode, owner: Option<string>, now: int): Rec {
    Rec(source, mode, if mode == DirectMode then Running else Created, None, 0, false, owner, now, None, None)
  }

  /** The session the index holds for `key`, when that session is still live. */
  function LiveFor(s: State, key: Key): Option<Id> {
    if key in s.bySource && s.bySource[key] in s.sessions && Live(s.sessions[s.bySource[key]].state)
    then Some(s.bySource[key]) else None
  }

  function Insert(s: State, id: Id, rec: Rec): State {
    s.(sessions := s.sessions[id := rec], bySource := s.bySource[KeyOf(rec) := id], issued := s.issued + {id})
  }

  function Create(s: State, id: Id, source: string, ok: Checks, d: Decision, owner: Option<string>, now: int)
    : (State, Outcome)
  {
    if !ok.source then (s, Raised(SourceRefused))
    else if d.mode == Unsupported then (s, Raised(SourceUnsupported))
    else
      var mode := SessionModeFor(ModeWhenChosen(d));
      var key := (source, mode);
      match LiveFor(s, key)
      case Some(known) =>
        var rec := s.sessions[known];
        (WithRec(s, known, rec.(lastSeen := now, owner := if owner.Some? then owner else rec.owner)), Returned(known))
      case None =>
        var cleared := s.(bySource := s.bySource - {key});
        if mode != DirectMode && Refusal(d, ok.build).Some? then (cleared, Raised(Refusal(d, ok.build).value))
        else (Insert(cleared, id, NewRec(source, mode, owner, now)), Returned(id))
  }

  // ------------------------------------------------------------------- serve

  /** Ending a child always waits on it. */
  function Terminate(children: seq<Child>, c: nat): seq<Child>
    requires c < |children|
  {
    children[c := children[c].(waited := true)]
  }

  function TerminateAny(children: seq<Child>, process: Option<nat>): seq<Child> {
    if process.Some? && process.value < |children| then Terminate(children, process.value) else children
  }

  /** `_rewind_for_a_new_reader`: a reader alone gets a child of its own. */
  function Rewind(s: State, id: Id): State
    requires id in s.sessions
  {
    var rec := s.sessions[id];
    if rec.clients > 0 || !rec.served || rec.process.None? then s
    else
      WithRec(s, id, rec.(process := None, served := false, state := Created))
      .(children := TerminateAny(s.children, rec.process))
  }

  /** `_start`: nothing to do for a running child, refused once the session has ended. */
  function Start(s: State, id: Id, spawned: bool): (State, Option<Error>)
    requires id in s.sessions
  {
    var rec := s.sessions[id];
    if rec.process.Some? then (s, None)
    else if rec.state == Stopping || rec.state == Stopped then (s, Some(SessionStopped))
    else if !spawned then (WithRec(s, id, rec.(state := Failed, reason := Some(StartError))), Some(StartFailed))
    else
      (WithRec(s, id, rec.(process := Some(|s.children|), state := Running))
       .(children := s.children + [Child(0, false)]), None)
  }

  /** One more client, and the handle it reads with. */
  function Admit(s: State, id: Id, direct: bool, now: int): State
    requires id in s.sessions
  {
    var rec := s.sessions[id];
    WithRec(s, id, rec.(clients := rec.clients + 1, lastSeen := now))
    .(readers := s.readers + [Reader(id, direct, Unstarted)])
  }

  function Attach(s: State, id: Id, spawned: bool, now: int): (State, Outcome) {
    if id !in s.sessions then (s, Raised(NotFound))
    else if s.sessions[id].mode == DirectMode then (s, Raised(SessionIsDirect))
    else
      var (started, error) := Start(Rewind(s, id), id, spawned);
      if error.Some? then (started, Raised(error.value))
      else (Admit(started, id, false, now), Returned(|s.readers|))
  }

  function ReadDirect(s: State, id: Id, now: int): (State, Outcome) {
    if id !in s.sessions then (s, Raised(NotFound))
    else (Admit(s, id, true, now), Returned(|s.readers|))
  }

  function Touch(s: State, id: Id, now: int): State {
    if id in s.sessions then WithRec(s, id, s.sessions[id].(lastSeen := now)) else s
  }

  function Release(s: State, id: Id, now: int): (State, Outcome) {
    if id !in s.sessions then (s, Raised(NotFound))
    else (WithRec(s, id, s.sessions[id].(owner := None, lastSeen := now)), Returned(id))
  }

  function Detach(s: State, id: Id, now: int): State {
    if id !in s.sessions then s
    else
      var rec := s.sessions[id];
      WithRec(s, id, rec.(clients := if rec.clients > 0 then rec.clients - 1 else 0, lastSeen := now))
  }

  function WithPhase(s: State, r: nat, phase: Phase): State
    requires r < |s.readers|
  {
    s.(readers := s.readers[r := s.readers[r].(phase := phase)])
  }

  /** The reader lets go, and its session counts one client less. */
  function LetGo(s: State, r: nat, now: int): State
    requires r < |s.readers|
  {
    Detach(WithPhase(s, r, Closed), s.readers[r].session, now)
  }

  /** The child a relay generator reads: the one it has bound, or the session's at its first turn. */
  function ChildOf(s: State, r: nat): Option<nat>
    requires r < |s.readers|
  {
    var reader := s.readers[r];
    match reader.phase
    case Reading(c) => Some(c)
    case Unstarted => if reader.session in s.sessions then s.sessions[reader.session].process else None
    case _ => None
  }

  /** `n` bytes off the pipe of child `c` of a session, which has then been served. */
  function Serve(s: State, id: Id, c: nat, n: nat, now: int): State
    requires c < |s.children|
  {
    var read := s.(children := s.children[c := s.children[c].(pos := s.children[c].pos + n)]);
    if id in s.sessions then WithRec(read, id, s.sessions[id].(served := true, lastSeen := now)) else read
  }

  function Take(s: State, r: nat, c: nat, n: nat, now: int): State
    requires r < |s.readers| && c < |s.children|
  {
    Serve(WithPhase(s, r, Reading(c)), s.readers[r].session, c, n, now)
  }

  /** One turn of a reader, given how many bytes its pipe or upstream had (none at its end). */
  function Next(s: State, r: nat, n: nat, now: int): State
    requires r < |s.readers|
  {
    var reader := s.readers[r];
    if reader.phase == Closed || reader.phase == Abandoned then s
    else if reader.direct then
      if n == 0 then LetGo(s, r, now) else Touch(s, reader.session, now)
    else
      match ChildOf(s, r)
      case None => WithPhase(s, r, Abandoned)
      case Some(c) =>
        if n == 0 || c >= |s.children| || s.children[c].waited then LetGo(s, r, now)
        else Take(s, r, c, n, now)
  }

  /** The reader is closed: a direct one is always uncounted, a generator only once it has started. */
  function Close(s: State, r: nat, now: int): State
    requires r < |s.readers|
  {
    var reader := s.readers[r];
    if reader.phase == Closed || reader.phase == Abandoned then s
    else if !reader.direct && reader.phase == Unstarted then WithPhase(s, r, Abandoned)
    else LetGo(s, r, now)
  }

  // -------------------------------------------------------------------- stop

  /** The first section of `stop`: the record is marked and its key leaves the index. */
  function StopBegin(s: State, id: Id, reason: StopReason): State
    requires id in s.sessions
  {
    var rec := s.sessions[id];
    WithRec(s, id, rec.(state := Stopping, reason := Some(reason))).(bySource := s.bySource - {KeyOf(rec)})
  }

  /** The rest of `stop`: the child captured by the first section is waited on, the record is closed. */
  function StopEnd(s: State, id: Id, captured: Option<nat>, now: int): State
    requires id in s.sessions
  {
    WithRec(s, id, s.sessions[id].(state := Stopped, stoppedAt := Some(now), clients := 0, process := None))
    .(children := TerminateAny(s.children, captured))
  }

  function Stop(s: State, id: Id, reason: StopReason, now: int): State {
    if id !in s.sessions || s.sessions[id].state == Stopped then s
    else StopEnd(StopBegin(s, id, reason), id, s.sessions[id].process, now)
  }

  function StopEach(s: State, doomed: seq<(Id, StopReason)>, now: int): State
    decreases |doomed|
  {
    if doomed == [] then s
    else
      var last := |doomed| - 1;
      Stop(StopEach(s, doomed[..last], now), doomed[last].0, doomed[last].1, now)
  }

  // ------------------------------------------------------------------ reaper

  /** Whether the reaper ends `rec`, and why. */
  function Verdict(rec: Rec, now: int, ttl: nat, exited: set<nat>): Option<StopReason> {
    if !Live(rec.state) then None
    else
      var held := rec.owner.Some? || rec.clients > 0;
      if rec.mode == DirectMode then
        if !held && now - rec.lastSeen > ttl * 4 then Some(Idle) else None
      else if !held && now - rec.lastSeen > ttl then Some(Idle)
      else if rec.process.Some? && rec.process.value in exited then Some(ChildExited)
      else None
  }

  /** `doomed` lists every session the reaper ends, once each, with its reason. */
  ghost predicate IsDoomed(s: State, now: int, ttl: nat, exited: set<nat>, doomed: seq<(Id, StopReason)>) {
    && (forall i :: 0 <= i < |doomed| ==>
          doomed[i].0 in s.sessions && Verdict(s.sessions[doomed[i].0], now, ttl, exited) == Some(doomed[i].1))
    && (forall i, j :: 0 <= i < j < |doomed| ==> doomed[i].0 != doomed[j].0)
    && (forall id :: id in s.sessions && Verdict(s.sessions[id], now, ttl, exited).Some? ==>
          exists i :: 0 <= i < |doomed| && doomed[i].0 == id)
  }

  /** `doomed` lists every live session once, all ended by shutdown. */
  ghost predicate IsActive(s: State, doomed: seq<(Id, StopReason)>) {
    && (forall i :: 0 <= i < |doomed| ==>
          doomed[i].0 in s.sessions && Live(s.sessions[doomed[i].0].state) && doomed[i].1 == ShutDown)
    && (forall i, j :: 0 <= i < j < |doomed| ==> doomed[i].0 != doomed[j].0)
    && (forall id :: id in s.sessions && Live(s.sessions[id].state) ==>
          exists i :: 0 <= i < |doomed| && doomed[i].0 == id)
  }

  predicate Expired(rec: Rec, cutoff: int) {
    rec.state == Stopped && (if rec.stoppedAt.Some? then rec.stoppedAt.value else 0) < cutoff
  }

  function Forget(s: State, now: int, age: int): State {
    s.(sessions := map id | id in s.sessions && !Expired(s.sessions[id], now - age) :: s.sessions[id])
  }
}

/** One live session per source: when the `(source, mode)` index is complete, and when a call breaks it. */
module SessionIndex {
  import opened Wrappers
  import opened PlaybackPolicy
  import opened SessionProtocol
  import opened SessionRuns

  /** Every live session is the one its key leads to. */
  ghost predicate Indexed(s: State) {
    forall id :: id in s.sessions && Live(s.sessions[id].state)
      ==> KeyOf(s.sessions[id]) in s.bySource && s.bySource[KeyOf(s.sessions[id])] == id
  }

  /** Every entry leads to a record of that key which has not ended. */
  ghost predicate IndexSound(s: State) {
    forall key :: key in s.bySource ==>
      && s.bySource[key] in s.sessions
      && KeyOf(s.sessions[s.bySource[key]]) == key && s.sessions[s.bySource[key]].state != Stopped
  }

  /**
   The two calls that break the index, told by what a caller can see beforehand: stopping a session
   whose start failed after a newer live one took its key, and starting such a session again while
   its key does not lead to it.
   */
  ghost predicate Displaces(s: State, e: Event) {
    match e
    case StopCall(id, _) => Overlooked(s, id)
    case AttachCall(id, spawned) =>
      id in s.sessions && Revives(s, id, spawned)
    case _ => false
  }

  /** The two states index alike: no record changed its key, or whether it is live, failed or ended. */
  ghost predicate Alike(s: State, t: State) {
    && t.bySource == s.bySource && t.sessions.Keys == s.sessions.Keys
    && forall id :: id in s.sessions ==>
         && KeyOf(t.sessions[id]) == KeyOf(s.sessions[id])
         && (Live(t.sessions[id].state) <==> Live(s.sessions[id].state))
         && (t.sessions[id].state == Stopped <==> s.sessions[id].state == Stopped)
         && (t.sessions[id].state == Failed <==> s.sessions[id].state == Failed)
  }

  lemma {:induction false} AlikeIndexed(s: State, t: State)
    requires Alike(s, t)
    ensures Indexed(s) <==> Indexed(t)
    ensures IndexSound(s) <==> IndexSound(t)
    ensures NoneFailed(s) <==> NoneFailed(t)
  {
  }

  /**
   What stopping `id` overlooks: another session, live, has its key, since `id` is not live itself.  Its
   start failed, or it is being stopped already.
   */
  predicate Overlooked(s: State, id: Id) {
    && id in s.sessions && !Live(s.sessions[id].state) && s.sessions[id].state != Stopped
    && LiveFor(s, KeyOf(s.sessions[id])).Some?
  }

  /** The first section of a stop keeps the index complete exactly when it overlooks no live session. */
  lemma {:induction false} BeginIndexed(s: State, id: Id, reason: StopReason)
    requires IndexSound(s) && Indexed(s) && id in s.sessions && s.sessions[id].state != Stopped
    ensures IndexSound(StopBegin(s, id, reason)) && KeyOf(s.sessions[id]) !in StopBegin(s, id, reason).bySource
    ensures Indexed(StopBegin(s, id, reason)) <==> !Overlooked(s, id)
  {
    var t, key := StopBegin(s, id, reason), KeyOf(s.sessions[id]);
    assert t.bySource == s.bySource - {key};
    assert forall o :: o in s.sessions && o != id ==> t.sessions[o] == s.sessions[o];
    if Overlooked(s, id) {
      var other := LiveFor(s, key).value;
      assert Live(t.sessions[other].state) && KeyOf(t.sessions[other]) !in t.bySource;
    }
  }

  /** Its second section changes nothing for the index. */
  lemma {:induction false} EndIndexed(s: State, id: Id, captured: Option<nat>, now: int)
    requires IndexSound(s) && id in s.sessions && s.sessions[id].state == Stopping && KeyOf(s.sessions[id]) !in s.bySource
    ensures IndexSound(StopEnd(s, id, captured, now))
    ensures Indexed(StopEnd(s, id, captured, now)) <==> Indexed(s)
  {
    var t := StopEnd(s, id, captured, now);
    assert t.bySource == s.bySource && KeyOf(t.sessions[id]) == KeyOf(s.sessions[id]);
    assert forall o :: o in s.sessions && o != id ==> t.sessions[o] == s.sessions[o];
  }

  /** And so of the two together, for a session in any state. */
  lemma {:induction false} StopIndexed(s: State, id: Id, reason: StopReason, now: int)
    requires IndexSound(s) && Indexed(s)
    ensures IndexSound(Stop(s, id, reason, now))
    ensures Indexed(Stop(s, id, reason, now)) <==> !Overlooked(s, id)
  {
    if id in s.sessions && s.sessions[id].state != Stopped {
      BeginIndexed(s, id, reason);
      EndIndexed(StopBegin(s, id, reason), id, s.sessions[id].process, now);
    }
  }

  /** Stopping leaves each session as it is or stopped. */
  lemma {:induction false} StopEachFails(s: State, doomed: seq<(Id, StopReason)>, now: int, id: Id)
    requires id in s.sessions
    ensures var t := StopEach(s, doomed, now);
      id in t.sessions && (t.sessions[id].state == s.sessions[id].state || t.sessions[id].state == Stopped)
    decreases |doomed|
  {
    if doomed != [] { StopEachFails(s, doomed[..|doomed| - 1], now, id); }
  }

  lemma {:induction false} StopEachUnfailed(s: State, doomed: seq<(Id, StopReason)>, now: int)
    requires Inv(s) && NoneFailed(s)
    ensures NoneFailed(StopEach(s, doomed, now))
  {
    StopEachKeeps(s, doomed, now);
    forall id | id in StopEach(s, doomed, now).sessions ensures StopEach(s, doomed, now).sessions[id].state != Failed {
      StopEachFails(s, doomed, now, id);
    }
  }

  lemma {:induction false} StopEachIndexed(s: State, doomed: seq<(Id, StopReason)>, now: int)
    requires Inv(s) && IndexSound(s) && Indexed(s)
    requires forall i :: 0 <= i < |doomed| ==> doomed[i].0 in s.sessions && Live(s.sessions[doomed[i].0].state)
    ensures IndexSound(StopEach(s, doomed, now)) && Indexed(StopEach(s, doomed, now))
    decreases |doomed|
  {
    if doomed != [] {
      var last := |doomed| - 1;
      StopEachIndexed(s, doomed[..last], now);
      StopEachFails(s, doomed[..last], now, doomed[last].0);
      StopIndexed(StopEach(s, doomed[..last], now), doomed[last].0, doomed[last].1, now);
    }
  }

  lemma {:induction false} InsertIndexed(s: State, id: Id, rec: Rec)
    requires IndexSound(s) && Indexed(s) && id !in s.sessions && rec.state != Stopped
    requires LiveFor(s, KeyOf(rec)).None?
    ensures IndexSound(Insert(s.(bySource := s.bySource - {KeyOf(rec)}), id, rec))
    ensures Indexed(Insert(s.(bySource := s.bySource - {KeyOf(rec)}), id, rec))
  {
  }

  lemma {:induction false} ClearIndexed(s: State, key: Key)
    requires IndexSound(s) && Indexed(s) && LiveFor(s, key).None?
    ensures IndexSound(s.(bySource := s.bySource - {key})) && Indexed(s.(bySource := s.bySource - {key}))
  {
  }

  lemma {:induction false} CreateIndexed(s: State, id: Id, source: string, ok: Checks, d: Decision,
                                         owner: Option<string>, now: int)
    requires IndexSound(s) && Indexed(s) && id !in s.sessions
    ensures IndexSound(Create(s, id, source, ok, d, owner, now).0)
    ensures Indexed(Create(s, id, source, ok, d, owner, now).0)
  {
    var mode := SessionModeFor(ModeWhenChosen(d));
    if ok.source && d.mode != Unsupported {
      match LiveFor(s, (source, mode))
      case Some(known) => AlikeIndexed(s, Create(s, id, source, ok, d, owner, now).0);
      case None =>
        ClearIndexed(s, (source, mode));
        InsertIndexed(s, id, NewRec(source, mode, owner, now));
    }
  }

  /** A failed session is started again while its key does not lead to it. */
  predicate Revives(s: State, id: Id, spawned: bool)
    requires id in s.sessions
  {
    s.sessions[id].state == Failed && spawned
    && !(KeyOf(s.sessions[id]) in s.bySource && s.bySource[KeyOf(s.sessions[id])] == id)
  }

  lemma {:induction false} RewindAlike(s: State, id: Id)
    requires id in s.sessions && (s.sessions[id].process.Some? ==> s.sessions[id].state == Running)
    ensures Alike(s, Rewind(s, id))
  {
  }

  lemma {:induction false} StartIndexed(s: State, id: Id, spawned: bool)
    requires IndexSound(s) && Indexed(s) && id in s.sessions
    requires s.sessions[id].process.Some? ==> s.sessions[id].state != Failed
    ensures IndexSound(Start(s, id, spawned).0)
    ensures Indexed(Start(s, id, spawned).0) <==> !Revives(s, id, spawned)
  {
    var t := Start(s, id, spawned).0;
    assert t.bySource == s.bySource;
    assert KeyOf(t.sessions[id]) == KeyOf(s.sessions[id]);
    assert forall o :: o in s.sessions && o != id ==> t.sessions[o] == s.sessions[o];
  }

  lemma {:induction false} AdmitAlike(s: State, id: Id, now: int)
    requires id in s.sessions
    ensures Alike(s, Admit(s, id, false, now))
  {
  }

  lemma {:induction false} RelayAttachIndexed(s: State, id: Id, spawned: bool, now: int)
    requires IndexSound(s) && Indexed(s) && id in s.sessions && s.sessions[id].mode != DirectMode
    requires s.sessions[id].process.Some? ==> s.sessions[id].state == Running
    ensures IndexSound(Attach(s, id, spawned, now).0)
    ensures Indexed(Attach(s, id, spawned, now).0) <==> !Revives(s, id, spawned)
  {
    RewindAlike(s, id);
    AlikeIndexed(s, Rewind(s, id));
    StartIndexed(Rewind(s, id), id, spawned);
    var started := Start(Rewind(s, id), id, spawned).0;
    AdmitAlike(started, id, now);
    AlikeIndexed(started, Admit(started, id, false, now));
    assert Attach(s, id, spawned, now).0 in {started, Admit(started, id, false, now)};
    assert Revives(Rewind(s, id), id, spawned) <==> Revives(s, id, spawned);
  }

  lemma {:induction false} AttachIndexed(s: State, id: Id, spawned: bool, now: int)
    requires Inv(s) && IndexSound(s) && Indexed(s)
    ensures IndexSound(Attach(s, id, spawned, now).0)
    ensures Indexed(Attach(s, id, spawned, now).0) <==> !Displaces(s, AttachCall(id, spawned))
  {
    if id in s.sessions {
      assert RecordOk(s.sessions[id], s.children);
      if s.sessions[id].mode != DirectMode { RelayAttachIndexed(s, id, spawned, now); }
    }
  }

  lemma {:induction false} ForgetIndexed(s: State, now: int, age: int)
    requires IndexSound(s) && Indexed(s)
    ensures IndexSound(Forget(s, now, age)) && Indexed(Forget(s, now, age))
  {
  }

  lemma {:induction false} CountAlike(s: State, id: Id, now: int)
    requires id in s.sessions
    ensures Alike(s, ReadDirect(s, id, now).0) && Alike(s, Release(s, id, now).0)
  {
  }

  /** A call keeps the index complete exactly when it is not one of the two above. */
  lemma {:induction false} IndexKeptIff(s: State, e: Event, now: int)
    requires Inv(s) && IndexSound(s) && Indexed(s) && Enabled(s, e, now)
    ensures IndexSound(Step(s, e, now))
    ensures Indexed(Step(s, e, now)) <==> !Displaces(s, e)
  {
    match e
    case CreateCall(id, source, ok, d, owner) => CreateIndexed(s, id, source, ok, d, owner, now);
    case AttachCall(id, spawned) => AttachIndexed(s, id, spawned, now);
    case ReadDirectCall(id) =>
      if id in s.sessions { CountAlike(s, id, now); AlikeIndexed(s, ReadDirect(s, id, now).0); }
    case NextCall(r, n) => ReadersIndexed(s, r, n, now);
    case CloseCall(r) => ReadersIndexed(s, r, 0, now);
    case ReleaseCall(id) =>
      if id in s.sessions { CountAlike(s, id, now); AlikeIndexed(s, Release(s, id, now).0); }
    case StopCall(id, reason) => StopIndexed(s, id, reason, now);
    case ReapCall(_, _, doomed) => StopEachIndexed(s, doomed, now);
    case ForgetCall(age) => ForgetIndexed(s, now, age);
    case ShutdownCall(doomed) => StopEachIndexed(s, doomed, now);
  }

  lemma {:induction false} AlikeTwice(s: State, t: State, u: State)
    requires Alike(s, t) && Alike(t, u)
    ensures Alike(s, u)
  {
  }

  lemma {:induction false} PhaseAlike(s: State, r: nat, phase: Phase)
    requires r < |s.readers|
    ensures Alike(s, WithPhase(s, r, phase))
  {
  }

  lemma {:induction false} DetachAlike(s: State, id: Id, now: int)
    ensures Alike(s, Detach(s, id, now)) && Alike(s, Touch(s, id, now))
  {
  }

  lemma {:induction false} ServeAlike(s: State, id: Id, c: nat, n: nat, now: int)
    requires c < |s.children|
    ensures Alike(s, Serve(s, id, c, n, now))
  {
  }

  lemma {:induction false} LetGoAlike(s: State, r: nat, now: int)
    requires r < |s.readers|
    ensures Alike(s, LetGo(s, r, now))
  {
    var t := WithPhase(s, r, Closed);
    PhaseAlike(s, r, Closed);
    DetachAlike(t, s.readers[r].session, now);
    AlikeTwice(s, t, LetGo(s, r, now));
  }

  lemma {:induction false} TakeAlike(s: State, r: nat, c: nat, n: nat, now: int)
    requires r < |s.readers| && c < |s.children|
    ensures Alike(s, Take(s, r, c, n, now))
  {
    var t := WithPhase(s, r, Reading(c));
    PhaseAlike(s, r, Reading(c));
    ServeAlike(t, s.readers[r].session, c, n, now);
    AlikeTwice(s, t, Take(s, r, c, n, now));
  }

  lemma {:induction false} NextAlike(s: State, r: nat, n: nat, now: int)
    requires r < |s.readers|
    ensures Alike(s, Next(s, r, n, now))
  {
    LetGoAlike(s, r, now);
    DetachAlike(s, s.readers[r].session, now);
    PhaseAlike(s, r, Abandoned);
    match ChildOf(s, r)
    case None =>
    case Some(c) => if c < |s.children| { TakeAlike(s, r, c, n, now); }
  }

  lemma {:induction false} CloseAlike(s: State, r: nat, now: int)
    requires r < |s.readers|
    ensures Alike(s, Close(s, r, now))
  {
    LetGoAlike(s, r, now);
    PhaseAlike(s, r, Abandoned);
  }

  lemma {:induction false} ReadersIndexed(s: State, r: nat, n: nat, now: int)
    requires IndexSound(s) && Indexed(s) && r < |s.readers|
    ensures IndexSound(Next(s, r, n, now)) && Indexed(Next(s, r, n, now))
    ensures IndexSound(Close(s, r, now)) && Indexed(Close(s, r, now))
    ensures NoneFailed(s) ==> NoneFailed(Next(s, r, n, now)) && NoneFailed(Close(s, r, now))
  {
    NextAlike(s, r, n, now);
    CloseAlike(s, r, now);
    AlikeIndexed(s, Next(s, r, n, now));
    AlikeIndexed(s, Close(s, r, now));
  }

  ghost predicate NoneFailed(s: State) {
    forall id :: id in s.sessions ==> s.sessions[id].state != Failed
  }

  lemma {:induction false} AttachUnfailed(s: State, id: Id, now: int)
    requires NoneFailed(s)
    ensures NoneFailed(Attach(s, id, true, now).0)
  {
    if id in s.sessions && s.sessions[id].mode != DirectMode {
      assert NoneFailed(Rewind(s, id));
      assert NoneFailed(Start(Rewind(s, id), id, true).0);
    }
  }

  lemma {:induction false} FailuresNeedAStart(s: State, e: Event, now: int)
    requires Inv(s) && IndexSound(s) && Indexed(s) && NoneFailed(s) && Enabled(s, e, now)
    requires e.AttachCall? ==> e.spawned
    ensures NoneFailed(Step(s, e, now))
  {
    match e
    case CreateCall(id, source, ok, d, owner) =>
    case AttachCall(id, spawned) => AttachUnfailed(s, id, now);
    case ReadDirectCall(id) =>
    case NextCall(r, n) => ReadersIndexed(s, r, n, now);
    case CloseCall(r) => ReadersIndexed(s, r, 0, now);
    case ReleaseCall(id) =>
    case StopCall(id, reason) =>
    case ReapCall(_, _, doomed) => StopEachUnfailed(s, doomed, now);
    case ForgetCall(age) =>
    case ShutdownCall(doomed) => StopEachUnfailed(s, doomed, now);
  }

  /** No call up to `i` displaced an entry. */
  ghost predicate Undisplaced(states: seq<State>, events: seq<(Event, int)>, i: nat)
    requires IsRun(states, events) && i < |states|
  {
    forall k :: 0 <= k < i ==> !Displaces(states[k], events[k].0)
  }

  lemma {:induction false} RunIndexed(states: seq<State>, events: seq<(Event, int)>, i: nat)
    requires IsRun(states, events) && i < |states| && Undisplaced(states, events, i)
    ensures Inv(states[i]) && IndexSound(states[i]) && Indexed(states[i])
  {
    if i > 0 {
      RunIndexed(states, events, i - 1);
      StepKeeps(states[i - 1], events[i - 1].0, events[i - 1].1);
      IndexKeptIff(states[i - 1], events[i - 1].0, events[i - 1].1);
    }
  }

  /** In every run the index has been complete up to a moment exactly when no call before displaced an entry. */
  lemma {:induction false} RunIndexedIff(states: seq<State>, events: seq<(Event, int)>, i: nat)
    requires IsRun(states, events) && i < |states|
    ensures (forall j :: 0 <= j <= i ==> Indexed(states[j])) <==> Undisplaced(states, events, i)
  {
    if Undisplaced(states, events, i) {
      forall j | 0 <= j <= i ensures Indexed(states[j]) { RunIndexed(states, events, j); }
    } else if forall j :: 0 <= j <= i ==> Indexed(states[j]) {
      var k := FirstDisplaced(states, events, i);
      RunIndexed(states, events, k);
      IndexKeptIff(states[k], events[k].0, events[k].1);
      assert !Indexed(states[k + 1]);
    }
  }

  lemma {:induction false} FirstDisplaced(states: seq<State>, events: seq<(Event, int)>, i: nat) returns (k: nat)
    requires IsRun(states, events) && i < |states| && !Undisplaced(states, events, i)
    ensures k < i && Displaces(states[k], events[k].0) && Undisplaced(states, events, k)
  {
    if Undisplaced(states, events, i - 1) { k := i - 1; } else { k := FirstDisplaced(states, events, i - 1); }
  }

  /** Only a failed start lets a later call displace one. */
  lemma {:induction false} NoFailureNoDisplacing(states: seq<State>, events: seq<(Event, int)>, i: nat)
    requires IsRun(states, events) && i < |states|
    requires forall k :: 0 <= k < i && events[k].0.AttachCall? ==> events[k].0.spawned
    ensures Undisplaced(states, events, i) && NoneFailed(states[i])
  {
    if i > 0 {
      NoFailureNoDisplacing(states, events, i - 1);
      var s, e := states[i - 1], events[i - 1].0;
      RunIndexed(states, events, i - 1);
      FailuresNeedAStart(s, e, events[i - 1].1);
      assert !Displaces(s, e) by {
        if e.StopCall? && e.id in s.sessions { assert RecordOk(s.sessions[e.id], s.children); }
      }
    }
  }

  /**
   As long as nothing displaced an entry there is one live session a source and mode, and asking again
   returns it.
   */
  lemma {:induction false} OneLiveSession(states: seq<State>, events: seq<(Event, int)>, i: nat, a: Id, b: Id,
                       newId: Id, ok: Checks, d: Decision, owner: Option<string>, now: int)
    requires IsRun(states, events) && i < |states| && Undisplaced(states, events, i)
    requires a in states[i].sessions && Live(states[i].sessions[a].state)
    ensures (b in states[i].sessions && Live(states[i].sessions[b].state)
             && KeyOf(states[i].sessions[a]) == KeyOf(states[i].sessions[b])) ==> a == b
    ensures var rec := states[i].sessions[a];
      ok.source && d.mode != Unsupported && SessionModeFor(ModeWhenChosen(d)) == rec.mode ==>
        Create(states[i], newId, rec.source, ok, d, owner, now).1 == Returned(a)
        && Create(states[i], newId, rec.source, ok, d, owner, now).0.sessions.Keys == states[i].sessions.Keys
  {
    RunIndexed(states, events, i);
  }

  // Two encoders for one viewer: session 0 fails to start, session 1 replaces it, stopping 0 takes
  // the entry of 1 along, and session 2 is made beside 1.
  const Fine := Checks(true, Built)
  const RemuxChoice := Decision(Remux, false, true, true, true)
  const Waiting := NewRec("u", RemuxMode, None, 0)
  const FailedStart := Waiting.(state := Failed, reason := Some(StartError))
  const EndedStart := Waiting.(state := Stopped, stoppedAt := Some(0), reason := Some(Requested))

  const Trace: seq<State> := [
    InitialState,
    State(map[0 := Waiting], map[("u", RemuxMode) := 0], [], [], {0}),
    State(map[0 := FailedStart], map[("u", RemuxMode) := 0], [], [], {0}),
    State(map[0 := FailedStart, 1 := Waiting], map[("u", RemuxMode) := 1], [], [], {0, 1}),
    State(map[0 := EndedStart, 1 := Waiting], map[], [], [], {0, 1}),
    State(map[0 := EndedStart, 1 := Waiting, 2 := Waiting], map[("u", RemuxMode) := 2], [], [], {0, 1, 2})]

  const Calls: seq<(Event, int)> := [
    (CreateCall(0, "u", Fine, RemuxChoice, None), 0),
    (AttachCall(0, false), 0),
    (CreateCall(1, "u", Fine, RemuxChoice, None), 0),
    (StopCall(0, Requested), 0),
    (CreateCall(2, "u", Fine, RemuxChoice, None), 0)]

  lemma {:induction false} TraceStarts()
    ensures Step(Trace[0], Calls[0].0, 0) == Trace[1]
    ensures Step(Trace[1], Calls[1].0, 0) == Trace[2]
    ensures Step(Trace[2], Calls[2].0, 0) == Trace[3]
  {
  }

  lemma {:induction false} TraceEnds()
    ensures Step(Trace[3], Calls[3].0, 0) == Trace[4]
    ensures Step(Trace[4], Calls[4].0, 0) == Trace[5]
  {
    assert Trace[3].bySource - {("u", RemuxMode)} == map[];
    assert Trace[4].bySource - {("u", RemuxMode)} == map[];
  }

  /** With one failed start a run does reach two live sessions of one source and mode. */
  lemma {:induction false} FailedStartSplitsTheKey()
    ensures IsRun(Trace, Calls)
    ensures KeyOf(Trace[5].sessions[1]) == KeyOf(Trace[5].sessions[2])
      && Live(Trace[5].sessions[1].state) && Live(Trace[5].sessions[2].state)
  {
    TraceStarts();
    TraceEnds();
  }
}

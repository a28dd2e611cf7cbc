/**
 What every run of the session protocol keeps: no child is orphaned, readers are counted, a reader
 alone gets its stream from the start, and an ended session stays ended.
 */
module SessionRuns {
  import opened Wrappers
  import opened PlaybackPolicy
  import opened SessionProtocol

  // ------------------------------------------------------------------ events

  /** One call on the manager, with what its surroundings answered. */
  datatype Event =
    | CreateCall(id: Id, source: string, checks: Checks, decision: Decision, owner: Option<string>)
    | AttachCall(id: Id, spawned: bool)
    | ReadDirectCall(id: Id)
    | NextCall(reader: nat, bytes: nat)
    | CloseCall(reader: nat)
    | ReleaseCall(id: Id)
    | StopCall(id: Id, reason: StopReason)
    | ReapCall(ttl: nat, exited: set<nat>, doomed: seq<(Id, StopReason)>)
    | ForgetCall(age: int)
    | ShutdownCall(doomed: seq<(Id, StopReason)>)

  /** Session ids are never issued twice, and only direct sessions are read directly. */
  ghost predicate Enabled(s: State, e: Event, now: int) {
    match e
    case CreateCall(id, _, _, _, _) => id !in s.issued
    case ReadDirectCall(id) => id in s.sessions ==> s.sessions[id].mode == DirectMode
    case NextCall(r, _) => r < |s.readers|
    case CloseCall(r) => r < |s.readers|
    case ReapCall(ttl, exited, doomed) => IsDoomed(s, now, ttl, exited, doomed)
    case ShutdownCall(doomed) => IsActive(s, doomed)
    case _ => true
  }

  ghost function Step(s: State, e: Event, now: int): State
    requires Enabled(s, e, now)
  {
    match e
    case CreateCall(id, source, ok, d, owner) => Create(s, id, source, ok, d, owner, now).0
    case AttachCall(id, spawned) => Attach(s, id, spawned, now).0
    case ReadDirectCall(id) => ReadDirect(s, id, now).0
    case NextCall(r, n) => Next(s, r, n, now)
    case CloseCall(r) => Close(s, r, now)
    case ReleaseCall(id) => Release(s, id, now).0
    case StopCall(id, reason) => Stop(s, id, reason, now)
    case ReapCall(_, _, doomed) => StopEach(s, doomed, now)
    case ForgetCall(age) => Forget(s, now, age)
    case ShutdownCall(doomed) => StopEach(s, doomed, now)
  }

  /** `states` is a run of the manager from nothing. */
  ghost predicate IsRun(states: seq<State>, events: seq<(Event, int)>) {
    && |states| == |events| + 1
    && states[0] == InitialState
    && forall i :: 0 <= i < |events| ==>
         Enabled(states[i], events[i].0, events[i].1) && states[i + 1] == Step(states[i], events[i].0, events[i].1)
  }

  // -------------------------------------------------------------- invariants

  predicate Counts(reader: Reader, id: Id) { reader.session == id && reader.phase != Closed }

  /** The readers of a session that have not let it go. */
  function Uncollected(readers: seq<Reader>, id: Id): nat {
    if readers == [] then 0
    else Uncollected(readers[..|readers| - 1], id) + if Counts(readers[|readers| - 1], id) then 1 else 0
  }

  /** Every record is in a shape a lock boundary leaves it in. */
  predicate RecordOk(rec: Rec, children: seq<Child>) {
    && rec.state != Stopping
    && (rec.process.Some? ==>
          && rec.state == Running && rec.mode != DirectMode
          && rec.process.value < |children| && !children[rec.process.value].waited
          && (children[rec.process.value].pos > 0 ==> rec.served))
    && (rec.state == Running && rec.mode != DirectMode ==> rec.process.Some?)
    && (rec.mode == DirectMode ==> rec.state == Running || rec.state == Stopped)
  }

  ghost predicate RecordsOk(s: State) {
    forall id :: id in s.sessions ==> RecordOk(s.sessions[id], s.children) && id in s.issued
  }

  /** No child serves two sessions. */
  ghost predicate Unshared(s: State) {
    forall a, b :: a in s.sessions && b in s.sessions && a != b && s.sessions[a].process.Some?
      ==> s.sessions[a].process != s.sessions[b].process
  }

  ghost predicate Owned(s: State, c: nat) {
    exists id :: id in s.sessions && s.sessions[id].process == Some(c)
  }

  /** Every child is waited on, or some session's. */
  ghost predicate NoOrphan(s: State) {
    forall c :: 0 <= c < |s.children| && !s.children[c].waited ==> Owned(s, c)
  }

  /** A generator in progress reads its session's child, or one whose pipe is closed. */
  predicate ReaderOk(s: State, reader: Reader) {
    && reader.session in s.issued
    && (reader.direct ==> !reader.phase.Reading? && reader.phase != Abandoned)
    && (reader.session in s.sessions ==> (reader.direct <==> s.sessions[reader.session].mode == DirectMode))
    && (reader.phase.Reading? ==>
          && reader.phase.child < |s.children|
          && (!s.children[reader.phase.child].waited ==>
                reader.session in s.sessions && s.sessions[reader.session].process == Some(reader.phase.child)))
  }

  ghost predicate ReadersOk(s: State) {
    forall r :: 0 <= r < |s.readers| ==> ReaderOk(s, s.readers[r])
  }

  /** While a session has not ended, its client count is the number of readers that have not let go. */
  ghost predicate Counted(s: State) {
    forall id :: id in s.sessions && s.sessions[id].state != Stopped
      ==> s.sessions[id].clients == Uncollected(s.readers, id)
  }

  ghost predicate Core(s: State) {
    RecordsOk(s) && Unshared(s) && NoOrphan(s) && ReadersOk(s)
  }

  ghost predicate Inv(s: State) {
    Core(s) && Counted(s)
  }

  // ---------------------------------------------------------------- counting

  lemma {:induction false} UncollectedAppend(readers: seq<Reader>, reader: Reader, id: Id)
    ensures Uncollected(readers + [reader], id) == Uncollected(readers, id) + if Counts(reader, id) then 1 else 0
  {
    assert (readers + [reader])[..|readers|] == readers;
  }

  lemma {:induction false} UncollectedUpdate(readers: seq<Reader>, r: nat, reader: Reader, id: Id)
    requires r < |readers|
    ensures Uncollected(readers[r := reader], id) + (if Counts(readers[r], id) then 1 else 0)
         == Uncollected(readers, id) + if Counts(reader, id) then 1 else 0
  {
    var last := |readers| - 1;
    if r == last {
      assert readers[r := reader][..last] == readers[..last];
    } else {
      UncollectedUpdate(readers[..last], r, reader, id);
      assert readers[r := reader][..last] == readers[..last][r := reader];
    }
  }

  lemma {:induction false} NoneUncollected(readers: seq<Reader>, id: Id)
    requires forall r :: 0 <= r < |readers| ==> readers[r].session != id
    ensures Uncollected(readers, id) == 0
  {
    if readers != [] { NoneUncollected(readers[..|readers| - 1], id); }
  }

  // ------------------------------------------------------------ preservation

  /**
   From `s` to `t` one record changed, and with it only its child: that one is kept, or waited on, or
   replaced by a child spawned just now.
   */
  ghost predicate Changed(s: State, t: State, id: Id) {
    && id in s.sessions && t.sessions.Keys == s.sessions.Keys && t.issued == s.issued
    && (forall o :: o in s.sessions && o != id ==> t.sessions[o] == s.sessions[o])
    && RecordOk(t.sessions[id], t.children) && t.sessions[id].mode == s.sessions[id].mode
    && |s.children| <= |t.children|
    && var before, after := s.sessions[id].process, t.sessions[id].process;
    && (before == after || after == None || (after.Some? && after.value >= |s.children|))
    && (before.Some? && before != after && before.value < |s.children| ==> t.children[before.value].waited)
    && (forall c :: 0 <= c < |s.children| && Some(c) != before ==> t.children[c] == s.children[c])
    && (forall c :: |s.children| <= c < |t.children| ==> after == Some(c))
    && (forall r :: 0 <= r < |t.readers| ==>
          (r < |s.readers| && t.readers[r] == s.readers[r]) || ReaderOk(t, t.readers[r]))
  }

  lemma {:induction false} ChangedRecords(s: State, t: State, id: Id)
    requires Core(s) && Changed(s, t, id)
    ensures RecordsOk(t) && Unshared(t)
  {
    forall o | o in t.sessions ensures RecordOk(t.sessions[o], t.children) && o in t.issued {
      assert RecordOk(s.sessions[o], s.children);
    }
  }

  lemma {:induction false} ChangedOwners(s: State, t: State, id: Id)
    requires Core(s) && Changed(s, t, id)
    ensures NoOrphan(t)
  {
    forall c | 0 <= c < |t.children| && !t.children[c].waited ensures Owned(t, c) {
      if c >= |s.children| || s.sessions[id].process == Some(c) {
        assert id in t.sessions && t.sessions[id].process == Some(c);
      } else {
        assert Owned(s, c);
        var o :| o in s.sessions && s.sessions[o].process == Some(c);
        assert o in t.sessions && t.sessions[o].process == Some(c);
      }
    }
  }

  lemma {:induction false} ChangedReaders(s: State, t: State, id: Id)
    requires Core(s) && Changed(s, t, id)
    ensures ReadersOk(t)
  {
    forall r | 0 <= r < |t.readers| ensures ReaderOk(t, t.readers[r]) {
      if r < |s.readers| && t.readers[r] == s.readers[r] { assert ReaderOk(s, s.readers[r]); }
    }
  }

  lemma {:induction false} ChangedCore(s: State, t: State, id: Id)
    requires Core(s) && Changed(s, t, id)
    ensures Core(t)
  {
    ChangedRecords(s, t, id);
    ChangedOwners(s, t, id);
    ChangedReaders(s, t, id);
  }

  /** One record changed, no reader did, and the record's count stands unless its session has ended. */
  lemma {:induction false} ChangedKeeps(s: State, t: State, id: Id)
    requires Inv(s) && Changed(s, t, id) && t.readers == s.readers
    requires t.sessions[id].state == Stopped
      || (s.sessions[id].state != Stopped && t.sessions[id].clients == s.sessions[id].clients)
    ensures Inv(t)
  {
    ChangedCore(s, t, id);
  }

  /** The index plays no part in the invariant. */
  lemma {:induction false} IndexKeeps(s: State, bySource: map<Key, Id>)
    requires Inv(s)
    ensures Inv(s.(bySource := bySource))
  {
    var t := s.(bySource := bySource);
    forall c | 0 <= c < |t.children| && !t.children[c].waited ensures Owned(t, c) {
      assert Owned(s, c);
    }
    forall r | 0 <= r < |t.readers| ensures ReaderOk(t, t.readers[r]) {
      assert ReaderOk(s, s.readers[r]);
    }
  }

  lemma {:induction false} InsertKeeps(s: State, id: Id, rec: Rec)
    requires Inv(s) && id !in s.issued
    requires rec.process.None? && rec.clients == 0 && RecordOk(rec, s.children)
    ensures Inv(Insert(s, id, rec))
  {
    var t := Insert(s, id, rec);
    forall c | 0 <= c < |t.children| && !t.children[c].waited ensures Owned(t, c) {
      var o :| o in s.sessions && s.sessions[o].process == Some(c);
      assert o in t.sessions && t.sessions[o].process == Some(c);
    }
    forall r | 0 <= r < |t.readers| ensures ReaderOk(t, t.readers[r]) {
      assert ReaderOk(s, s.readers[r]);
    }
    assert Counted(t) by { NoneUncollected(s.readers, id); }
  }

  lemma {:induction false} CreateKeeps(s: State, id: Id, source: string, ok: Checks, d: Decision,
                                       owner: Option<string>, now: int)
    requires Inv(s) && id !in s.issued
    ensures Inv(Create(s, id, source, ok, d, owner, now).0)
  {
    var mode := SessionModeFor(ModeWhenChosen(d));
    var key := (source, mode);
    if ok.source && d.mode != Unsupported {
      match LiveFor(s, key)
      case Some(known) =>
        var rec := s.sessions[known];
        TouchKeeps(s, known, rec.(lastSeen := now, owner := if owner.Some? then owner else rec.owner));
      case None =>
        IndexKeeps(s, s.bySource - {key});
        InsertKeeps(s.(bySource := s.bySource - {key}), id, NewRec(source, mode, owner, now));
    }
  }

  lemma {:induction false} TouchKeeps(s: State, id: Id, rec: Rec)
    requires Inv(s) && id in s.sessions
    requires rec == s.sessions[id].(owner := rec.owner, lastSeen := rec.lastSeen)
    ensures Inv(WithRec(s, id, rec))
  {
    assert RecordOk(s.sessions[id], s.children);
    ChangedKeeps(s, WithRec(s, id, rec), id);
  }

  lemma {:induction false} RewindKeeps(s: State, id: Id)
    requires Inv(s) && id in s.sessions
    ensures Inv(Rewind(s, id))
    ensures var t := Rewind(s, id);
      && t.sessions.Keys == s.sessions.Keys && t.readers == s.readers
      && t.sessions[id].clients == s.sessions[id].clients && t.sessions[id].mode == s.sessions[id].mode
      && (t.sessions[id].clients == 0 && t.sessions[id].process.Some? ==>
            t.children[t.sessions[id].process.value].pos == 0)
  {
    assert RecordOk(s.sessions[id], s.children);
    if Rewind(s, id) != s { ChangedKeeps(s, Rewind(s, id), id); }
  }

  lemma {:induction false} StartKeeps(s: State, id: Id, spawned: bool)
    requires Inv(s) && id in s.sessions && s.sessions[id].mode != DirectMode
    ensures Inv(Start(s, id, spawned).0)
    ensures var (t, error) := Start(s, id, spawned);
      && id in t.sessions && t.sessions[id].mode != DirectMode
      && (error.None? ==> t.sessions[id].process.Some? && t.sessions[id].clients == s.sessions[id].clients)
  {
    assert RecordOk(s.sessions[id], s.children);
    if Start(s, id, spawned).0 != s { ChangedKeeps(s, Start(s, id, spawned).0, id); }
  }

  lemma {:induction false} AdmitCounted(s: State, id: Id, direct: bool, now: int)
    requires Counted(s) && id in s.sessions
    ensures Counted(Admit(s, id, direct, now))
  {
    var t := Admit(s, id, direct, now);
    forall o | o in t.sessions && t.sessions[o].state != Stopped
      ensures t.sessions[o].clients == Uncollected(t.readers, o)
    {
      UncollectedAppend(s.readers, Reader(id, direct, Unstarted), o);
    }
  }

  lemma {:induction false} AdmitKeeps(s: State, id: Id, direct: bool, now: int)
    requires Inv(s) && id in s.sessions && (direct <==> s.sessions[id].mode == DirectMode)
    ensures Inv(Admit(s, id, direct, now))
  {
    assert RecordOk(s.sessions[id], s.children);
    ChangedCore(s, Admit(s, id, direct, now), id);
    AdmitCounted(s, id, direct, now);
  }

  /** Readers are not part of the children's story: only a handle's own phase can break its claim. */
  lemma {:induction false} HandleKeeps(s: State, r: nat, phase: Phase)
    requires Core(s) && r < |s.readers| && ReaderOk(s, s.readers[r].(phase := phase))
    ensures Core(WithPhase(s, r, phase))
  {
    var t := WithPhase(s, r, phase);
    forall c | 0 <= c < |t.children| && !t.children[c].waited ensures Owned(t, c) { assert Owned(s, c); }
    forall q | 0 <= q < |t.readers| ensures ReaderOk(t, t.readers[q]) {
      if q != r { assert ReaderOk(s, s.readers[q]); }
    }
  }

  lemma {:induction false} LetGoCounted(s: State, r: nat, now: int)
    requires Counted(s) && r < |s.readers| && s.readers[r].phase != Closed
    ensures Counted(LetGo(s, r, now))
  {
    var t := LetGo(s, r, now);
    forall o | o in t.sessions && t.sessions[o].state != Stopped
      ensures t.sessions[o].clients == Uncollected(t.readers, o)
    {
      UncollectedUpdate(s.readers, r, s.readers[r].(phase := Closed), o);
    }
  }

  lemma {:induction false} LetGoKeeps(s: State, r: nat, now: int)
    requires Inv(s) && r < |s.readers| && s.readers[r].phase != Closed
    ensures Inv(LetGo(s, r, now))
  {
    var id := s.readers[r].session;
    assert ReaderOk(s, s.readers[r]);
    HandleKeeps(s, r, Closed);
    if id in s.sessions {
      assert RecordOk(s.sessions[id], s.children);
      ChangedCore(WithPhase(s, r, Closed), LetGo(s, r, now), id);
    }
    LetGoCounted(s, r, now);
  }

  lemma {:induction false} PhaseKeeps(s: State, r: nat, phase: Phase)
    requires Inv(s) && r < |s.readers| && s.readers[r].phase != Closed && phase != Closed
    requires ReaderOk(s, s.readers[r].(phase := phase))
    ensures Inv(WithPhase(s, r, phase))
  {
    var t := WithPhase(s, r, phase);
    HandleKeeps(s, r, phase);
    forall o | o in t.sessions && t.sessions[o].state != Stopped
      ensures t.sessions[o].clients == Uncollected(t.readers, o)
    {
      UncollectedUpdate(s.readers, r, s.readers[r].(phase := phase), o);
    }
  }

  lemma {:induction false} ServeKeeps(s: State, id: Id, c: nat, n: nat, now: int)
    requires Inv(s) && id in s.sessions && s.sessions[id].process == Some(c)
    ensures Inv(Serve(s, id, c, n, now))
  {
    assert RecordOk(s.sessions[id], s.children);
    ChangedKeeps(s, Serve(s, id, c, n, now), id);
  }

  lemma {:induction false} TakeKeeps(s: State, r: nat, c: nat, n: nat, now: int)
    requires Inv(s) && r < |s.readers| && s.readers[r].phase != Closed && !s.readers[r].direct
    requires ChildOf(s, r) == Some(c) && c < |s.children| && !s.children[c].waited
    ensures Inv(Take(s, r, c, n, now))
  {
    assert ReaderOk(s, s.readers[r]);
    PhaseKeeps(s, r, Reading(c));
    ServeKeeps(WithPhase(s, r, Reading(c)), s.readers[r].session, c, n, now);
  }

  lemma {:induction false} NextKeeps(s: State, r: nat, n: nat, now: int)
    requires Inv(s) && r < |s.readers|
    ensures Inv(Next(s, r, n, now))
  {
    var reader := s.readers[r];
    if reader.phase == Closed || reader.phase == Abandoned {
    } else if reader.direct {
      if n == 0 { LetGoKeeps(s, r, now); }
      else if reader.session in s.sessions {
        TouchKeeps(s, reader.session, s.sessions[reader.session].(lastSeen := now));
      }
    } else {
      match ChildOf(s, r)
      case None => PhaseKeeps(s, r, Abandoned);
      case Some(c) =>
        if n == 0 || c >= |s.children| || s.children[c].waited { LetGoKeeps(s, r, now); }
        else { TakeKeeps(s, r, c, n, now); }
    }
  }

  lemma {:induction false} CloseKeeps(s: State, r: nat, now: int)
    requires Inv(s) && r < |s.readers|
    ensures Inv(Close(s, r, now))
  {
    var reader := s.readers[r];
    if reader.phase == Closed || reader.phase == Abandoned {
    } else if !reader.direct && reader.phase == Unstarted {
      PhaseKeeps(s, r, Abandoned);
    } else {
      LetGoKeeps(s, r, now);
    }
  }

  lemma {:induction false} StopKeeps(s: State, id: Id, reason: StopReason, now: int)
    requires Inv(s)
    ensures Inv(Stop(s, id, reason, now))
  {
    if id in s.sessions && s.sessions[id].state != Stopped {
      assert RecordOk(s.sessions[id], s.children);
      ChangedKeeps(s, Stop(s, id, reason, now), id);
    }
  }

  lemma {:induction false} StopEachKeeps(s: State, doomed: seq<(Id, StopReason)>, now: int)
    requires Inv(s)
    ensures Inv(StopEach(s, doomed, now))
    ensures StopEach(s, doomed, now).sessions.Keys == s.sessions.Keys
    decreases |doomed|
  {
    if doomed != [] {
      var last := |doomed| - 1;
      StopEachKeeps(s, doomed[..last], now);
      StopKeeps(StopEach(s, doomed[..last], now), doomed[last].0, doomed[last].1, now);
    }
  }

  lemma {:induction false} ForgetKeeps(s: State, now: int, age: int)
    requires Inv(s)
    ensures Inv(Forget(s, now, age))
  {
    var t := Forget(s, now, age);
    forall c | 0 <= c < |t.children| && !t.children[c].waited ensures Owned(t, c) {
      var o :| o in s.sessions && s.sessions[o].process == Some(c);
      assert o in t.sessions && t.sessions[o].process == Some(c);
    }
  }

  lemma {:induction false} AttachKeeps(s: State, id: Id, spawned: bool, now: int)
    requires Inv(s)
    ensures Inv(Attach(s, id, spawned, now).0)
  {
    if id in s.sessions && s.sessions[id].mode != DirectMode {
      RewindKeeps(s, id);
      StartKeeps(Rewind(s, id), id, spawned);
      var (started, error) := Start(Rewind(s, id), id, spawned);
      if error.None? { AdmitKeeps(started, id, false, now); }
    }
  }

  lemma {:induction false} StepKeeps(s: State, e: Event, now: int)
    requires Inv(s) && Enabled(s, e, now)
    ensures Inv(Step(s, e, now))
  {
    match e
    case CreateCall(id, source, ok, d, owner) => CreateKeeps(s, id, source, ok, d, owner, now);
    case AttachCall(id, spawned) => AttachKeeps(s, id, spawned, now);
    case ReadDirectCall(id) => if id in s.sessions { AdmitKeeps(s, id, true, now); }
    case NextCall(r, n) => NextKeeps(s, r, n, now);
    case CloseCall(r) => CloseKeeps(s, r, now);
    case ReleaseCall(id) =>
      if id in s.sessions { TouchKeeps(s, id, s.sessions[id].(owner := None, lastSeen := now)); }
    case StopCall(id, reason) => StopKeeps(s, id, reason, now);
    case ReapCall(_, _, doomed) => StopEachKeeps(s, doomed, now);
    case ForgetCall(age) => ForgetKeeps(s, now, age);
    case ShutdownCall(doomed) => StopEachKeeps(s, doomed, now);
  }

  lemma {:induction false} RunKeeps(states: seq<State>, events: seq<(Event, int)>, i: nat)
    requires IsRun(states, events) && i < |states|
    ensures Inv(states[i])
  {
    if i > 0 {
      RunKeeps(states, events, i - 1);
      StepKeeps(states[i - 1], events[i - 1].0, events[i - 1].1);
    }
  }
}

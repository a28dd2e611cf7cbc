/**
 Runs in which `stop` and `attach` are what they are under the lock: sections, with the lock let go between
 them and while a child is waited on, and any other calls, stops and attaches in between.
 */
module SessionSections {
  import opened Wrappers
  import opened SessionProtocol
  import opened SessionRuns

  datatype Stage = Begun | Waited | Finished

  /** A call that took a child out of a record to wait on it: a stop, which has a section more, or a rewind. */
  datatype Taking = Taking(id: Id, captured: Option<nat>, stage: Stage, stops: bool)

  datatype Moment = Moment(s: State, takings: seq<Taking>)

  const Beginning := Moment(InitialState, [])

  /**
   A call that neither stops nor attaches, in one piece; or a section of a stop, whether a caller's, the
   reaper's or shutdown's; or one of an attach, in whatever order attaches come; or the wait on a child.
   The first section of an attach finds something to rewind or not.
   */
  datatype Part =
    | Whole(call: Event)
    | Begins(id: Id, reason: StopReason)
    | Closes(taking: nat)
    | Rewinds(id: Id)
    | Starts(id: Id, spawned: bool)
    | Admits(id: Id)
    | Waits(taking: nat)

  /** A reader alone, of a child that has been read. */
  predicate Rewindable(s: State, id: Id) {
    && id in s.sessions && s.sessions[id].mode != DirectMode
    && s.sessions[id].clients == 0 && s.sessions[id].served && s.sessions[id].process.Some?
  }

  ghost predicate Possible(m: Moment, p: Part, now: int) {
    match p
    case Whole(call) =>
      !call.StopCall? && !call.ReapCall? && !call.ShutdownCall? && !call.AttachCall? && Enabled(m.s, call, now)
    case Begins(id, _) => id in m.s.sessions && m.s.sessions[id].state != Stopped
    case Closes(k) => k < |m.takings| && m.takings[k].stops && m.takings[k].stage == Waited
    case Rewinds(id) => id in m.s.sessions && m.s.sessions[id].mode != DirectMode
    case Starts(id, _) => id in m.s.sessions && m.s.sessions[id].mode != DirectMode
    case Admits(id) => if id in m.s.sessions then m.s.sessions[id].mode != DirectMode else id in m.s.issued
    case Waits(k) => k < |m.takings| && m.takings[k].stage == Begun
  }

  /** The last section of a stop; a record forgotten meanwhile is no longer the manager's. */
  function CloseRecord(s: State, id: Id, now: int): State {
    if id in s.sessions then StopEnd(s, id, None, now) else s
  }

  /** The last section of an attach, which has its own hold on a record forgotten meanwhile. */
  function AdmitRecord(s: State, id: Id, now: int): State {
    if id in s.sessions then Admit(s, id, false, now) else s.(readers := s.readers + [Reader(id, false, Unstarted)])
  }

  /** The section of a rewind, which leaves the child to be waited on. */
  function RewindRecord(s: State, id: Id): State
    requires id in s.sessions
  {
    WithRec(s, id, s.sessions[id].(process := None, served := false, state := Created))
  }

  ghost function After(m: Moment, p: Part, now: int): Moment
    requires Possible(m, p, now)
  {
    match p
    case Whole(call) => m.(s := Step(m.s, call, now))
    case Begins(id, reason) =>
      Moment(StopBegin(m.s, id, reason), m.takings + [Taking(id, m.s.sessions[id].process, Begun, true)])
    case Closes(k) =>
      Moment(CloseRecord(m.s, m.takings[k].id, now), m.takings[k := m.takings[k].(stage := Finished)])
    case Rewinds(id) =>
      if !Rewindable(m.s, id) then m
      else Moment(RewindRecord(m.s, id), m.takings + [Taking(id, m.s.sessions[id].process, Begun, false)])
    case Starts(id, spawned) => m.(s := Start(m.s, id, spawned).0)
    case Admits(id) => m.(s := AdmitRecord(m.s, id, now))
    case Waits(k) =>
      Moment(m.s.(children := TerminateAny(m.s.children, m.takings[k].captured)),
             m.takings[k := m.takings[k].(stage := if m.takings[k].stops then Waited else Finished)])
  }

  ghost predicate IsSplitRun(moments: seq<Moment>, parts: seq<(Part, int)>) {
    && |moments| == |parts| + 1
    && moments[0] == Beginning
    && forall i :: 0 <= i < |parts| ==>
         Possible(moments[i], parts[i].0, parts[i].1) && moments[i + 1] == After(moments[i], parts[i].0, parts[i].1)
  }

  /** With nothing in between the parts of a stop are the stop in one step. */
  lemma {:induction false} PartsAreTheStop(m: Moment, id: Id, reason: StopReason, now: int)
    requires id in m.s.sessions && m.s.sessions[id].state != Stopped
    ensures Possible(m, Begins(id, reason), now)
    ensures var begun, k := After(m, Begins(id, reason), now), |m.takings|;
      && Possible(begun, Waits(k), now) && Possible(After(begun, Waits(k), now), Closes(k), now)
      && After(After(begun, Waits(k), now), Closes(k), now).s == Stop(m.s, id, reason, now)
  {
    var begun, k := After(m, Begins(id, reason), now), |m.takings|;
    assert begun.takings[k] == Taking(id, m.s.sessions[id].process, Begun, true);
  }

  /** And those of an attach that attach. */
  lemma {:induction false} PartsAreTheAttach(m: Moment, id: Id, spawned: bool, now: int)
    requires id in m.s.sessions && m.s.sessions[id].mode != DirectMode
    ensures Possible(m, Rewinds(id), now)
    ensures Rewindable(m.s, id) ==> Possible(After(m, Rewinds(id), now), Waits(|m.takings|), now)
    ensures var looked := After(m, Rewinds(id), now);
      var alone := if Rewindable(m.s, id) then After(looked, Waits(|m.takings|), now) else looked;
      && alone.s == Rewind(m.s, id) && Possible(alone, Starts(id, spawned), now)
      && var started := After(alone, Starts(id, spawned), now);
      && Possible(started, Admits(id), now)
      && Attach(m.s, id, spawned, now).0
         == if Start(alone.s, id, spawned).1.None? then After(started, Admits(id), now).s else started.s
  {
    if Rewindable(m.s, id) {
      var rewound := After(m, Rewinds(id), now);
      assert rewound.takings[|m.takings|] == Taking(id, m.s.sessions[id].process, Begun, false);
    }
  }

  // ------------------------------------------------------------- who has which child

  function ProcessOf(s: State, id: Id): Option<nat> {
    if id in s.sessions then s.sessions[id].process else None
  }

  /** A record is of an issued id, and has no process once it is stopped. */
  ghost predicate Tidy(s: State) {
    forall id :: id in s.sessions ==> id in s.issued && (s.sessions[id].state == Stopped ==> s.sessions[id].process == None)
  }

  /** What holds of the records however the stops are interleaved. */
  ghost predicate Sound(s: State) {
    && Tidy(s)
    && (forall id :: ProcessOf(s, id).Some? ==> ProcessOf(s, id).value < |s.children|)
    && (forall a, b :: a != b && ProcessOf(s, a).Some? ==> ProcessOf(s, a) != ProcessOf(s, b))
  }

  /** Every session has the process it had, and no child was waited on or spawned. */
  ghost predicate SameChildren(s: State, t: State) {
    && (forall id :: ProcessOf(t, id) == ProcessOf(s, id))
    && |t.children| == |s.children|
    && forall c :: 0 <= c < |s.children| ==> t.children[c].waited == s.children[c].waited
  }

  /** A child is left as it was, or was waited on by the session that had it; a new one has a session. */
  ghost predicate Carries(s: State, t: State) {
    && Sound(t) && |s.children| <= |t.children|
    && (forall c :: 0 <= c < |s.children| ==>
          || (t.children[c].waited == s.children[c].waited && (Owned(t, c) <==> Owned(s, c)))
          || (Owned(s, c) && t.children[c].waited))
    && (forall c :: |s.children| <= c < |t.children| ==> Owned(t, c) || t.children[c].waited)
  }

  lemma {:induction false} OwnedIff(s: State, c: nat)
    ensures Owned(s, c) <==> exists id :: ProcessOf(s, id) == Some(c)
  {
    if id :| id in s.sessions && s.sessions[id].process == Some(c) { assert ProcessOf(s, id) == Some(c); }
    if id :| ProcessOf(s, id) == Some(c) { assert id in s.sessions && s.sessions[id].process == Some(c); }
  }

  lemma {:induction false} SameCarries(s: State, t: State)
    requires Sound(s) && Tidy(t) && SameChildren(s, t)
    ensures Carries(s, t)
  {
    forall c | 0 <= c < |s.children| ensures Owned(t, c) <==> Owned(s, c) {
      OwnedIff(s, c);
      OwnedIff(t, c);
    }
  }

  lemma {:induction false} StartCarries(s: State, id: Id, spawned: bool)
    requires Sound(s) && id in s.sessions
    ensures Carries(s, Start(s, id, spawned).0)
  {
    var t := Start(s, id, spawned).0;
    if |t.children| == |s.children| {
      SameCarries(s, t);
    } else {
      assert forall o :: ProcessOf(t, o) == if o == id then Some(|s.children|) else ProcessOf(s, o);
      forall c | 0 <= c < |s.children| ensures Owned(t, c) <==> Owned(s, c) {
        OwnedIff(s, c);
        OwnedIff(t, c);
      }
      assert t.sessions[id].process == Some(|s.children|);
    }
  }

  /** A turn of a reader moves a pipe and no process. */
  lemma {:induction false} ReaderSame(s: State, r: nat, n: nat, now: int)
    requires Sound(s) && r < |s.readers|
    ensures SameChildren(s, Next(s, r, n, now)) && Tidy(Next(s, r, n, now))
    ensures SameChildren(s, Close(s, r, now)) && Tidy(Close(s, r, now))
  {
    LetGoSame(s, r, now);
    match ChildOf(s, r)
    case None =>
    case Some(c) => if c < |s.children| { TakeSame(s, r, c, n, now); }
  }

  lemma {:induction false} LetGoSame(s: State, r: nat, now: int)
    requires Sound(s) && r < |s.readers|
    ensures SameChildren(s, LetGo(s, r, now)) && Tidy(LetGo(s, r, now))
  {
  }

  lemma {:induction false} TakeSame(s: State, r: nat, c: nat, n: nat, now: int)
    requires Sound(s) && r < |s.readers| && c < |s.children|
    ensures SameChildren(s, Take(s, r, c, n, now)) && Tidy(Take(s, r, c, n, now))
  {
  }

  lemma {:induction false} CreateSame(s: State, id: Id, source: string, ok: Checks, d: Decision, owner: Option<string>, now: int)
    requires Sound(s) && id !in s.issued
    ensures SameChildren(s, Create(s, id, source, ok, d, owner, now).0) && Tidy(Create(s, id, source, ok, d, owner, now).0)
  {
  }

  /** A call in one piece leaves the children to the sessions that have them. */
  lemma {:induction false} OthersSame(m: Moment, call: Event, now: int)
    requires Sound(m.s) && Possible(m, Whole(call), now)
    ensures SameChildren(m.s, Step(m.s, call, now)) && Tidy(Step(m.s, call, now))
  {
    match call
    case CreateCall(id, source, ok, d, owner) => CreateSame(m.s, id, source, ok, d, owner, now);
    case ReadDirectCall(id) =>
    case NextCall(r, n) => ReaderSame(m.s, r, n, now);
    case CloseCall(r) => ReaderSame(m.s, r, 0, now);
    case ReleaseCall(id) =>
    case ForgetCall(age) =>
  }

  // ------------------------------------------------------------- lost children

  /** Some call is still to wait on child `c`. */
  ghost predicate Captured(m: Moment, c: nat) {
    exists k :: 0 <= k < |m.takings| && m.takings[k].stage == Begun && m.takings[k].captured == Some(c)
  }

  /** Nobody is ever going to wait on child `c`. */
  ghost predicate Lost(m: Moment, c: nat) {
    c < |m.s.children| && !m.s.children[c].waited && !Owned(m.s, c) && !Captured(m, c)
  }

  ghost predicate Sane(m: Moment) {
    && Sound(m.s)
    && forall k :: 0 <= k < |m.takings| && m.takings[k].captured.Some? ==> m.takings[k].captured.value < |m.s.children|
  }

  /**
   The last section of a stop lets go of child `c`: the record has it by now, nobody has waited on it, and
   no other call is going to.
   */
  ghost predicate LetsGo(m: Moment, p: Part, c: nat) {
    && p.Closes? && p.taking < |m.takings| && ProcessOf(m.s, m.takings[p.taking].id) == Some(c)
    && c < |m.s.children| && !m.s.children[c].waited && !Captured(m, c)
  }

  /** A step that takes no child out of a record and waits on none. */
  lemma {:induction false} CarriedLoses(m: Moment, t: Moment, c: nat)
    requires Sane(m) && Carries(m.s, t.s) && t.takings == m.takings
    ensures Sane(t) && (Lost(t, c) <==> Lost(m, c))
  {
    assert Captured(t, c) <==> Captured(m, c);
  }

  lemma {:induction false} WholeLoses(m: Moment, p: Part, now: int, c: nat)
    requires Sane(m) && Possible(m, p, now) && (p.Whole? || p.Starts? || p.Admits?)
    ensures Sane(After(m, p, now))
    ensures Lost(After(m, p, now), c) <==> Lost(m, c)
  {
    var t := After(m, p, now);
    match p
    case Whole(call) => OthersSame(m, call, now); SameCarries(m.s, t.s);
    case Starts(id, spawned) => StartCarries(m.s, id, spawned);
    case Admits(id) => SameCarries(m.s, t.s);
    CarriedLoses(m, t, c);
  }

  /** A step that takes a child out of a record, or is about to, and is to wait on it. */
  lemma {:induction false} TakenLoses(m: Moment, t: Moment, taking: Taking, c: nat)
    requires Sane(m) && Tidy(t.s) && t.s.children == m.s.children
    requires t.takings == m.takings + [taking] && taking.stage == Begun && taking.captured == ProcessOf(m.s, taking.id)
    requires forall o :: o != taking.id ==> ProcessOf(t.s, o) == ProcessOf(m.s, o)
    requires ProcessOf(t.s, taking.id) in {None, taking.captured}
    ensures Sane(t) && (Lost(t, c) <==> Lost(m, c))
  {
    forall k | 0 <= k < |t.takings| && t.takings[k].captured.Some? ensures t.takings[k].captured.value < |t.s.children| {
      if k < |m.takings| { assert t.takings[k] == m.takings[k]; }
    }
    OwnedIff(m.s, c);
    OwnedIff(t.s, c);
    assert t.takings[|m.takings|] == taking;
    if k :| 0 <= k < |m.takings| && m.takings[k].stage == Begun && m.takings[k].captured == Some(c) {
      assert t.takings[k] == m.takings[k];
    }
    if k :| 0 <= k < |t.takings| && t.takings[k].stage == Begun && t.takings[k].captured == Some(c) {
      assert k < |m.takings| ==> t.takings[k] == m.takings[k];
      assert k == |m.takings| ==> ProcessOf(m.s, taking.id) == Some(c);
    }
  }

  lemma {:induction false} TakesLoses(m: Moment, p: Part, now: int, c: nat)
    requires Sane(m) && Possible(m, p, now) && (p.Begins? || (p.Rewinds? && Rewindable(m.s, p.id)))
    ensures Sane(After(m, p, now))
    ensures Lost(After(m, p, now), c) <==> Lost(m, c)
  {
    var t := After(m, p, now);
    TakenLoses(m, t, Taking(p.id, m.s.sessions[p.id].process, Begun, p.Begins?), c);
  }

  lemma {:induction false} WaitsLoses(m: Moment, k: nat, now: int, c: nat)
    requires Sane(m) && Possible(m, Waits(k), now)
    ensures Sane(After(m, Waits(k), now))
    ensures Lost(After(m, Waits(k), now), c) <==> Lost(m, c)
  {
    var t := After(m, Waits(k), now);
    assert forall id :: ProcessOf(t.s, id) == ProcessOf(m.s, id);
    OwnedIff(m.s, c);
    OwnedIff(t.s, c);
    if j :| 0 <= j < |m.takings| && m.takings[j].stage == Begun && m.takings[j].captured == Some(c) {
      assert j == k || t.takings[j] == m.takings[j];
    }
    if j :| 0 <= j < |t.takings| && t.takings[j].stage == Begun && t.takings[j].captured == Some(c) {
      assert j != k && t.takings[j] == m.takings[j];
    }
  }

  lemma {:induction false} ClosesLoses(m: Moment, k: nat, now: int, c: nat)
    requires Sane(m) && Possible(m, Closes(k), now)
    ensures Sane(After(m, Closes(k), now))
    ensures Lost(After(m, Closes(k), now), c) <==> Lost(m, c) || LetsGo(m, Closes(k), c)
  {
    var t, id := After(m, Closes(k), now), m.takings[k].id;
    assert forall o :: ProcessOf(t.s, o) == if o == id then None else ProcessOf(m.s, o);
    assert |t.s.children| == |m.s.children| && forall d :: 0 <= d < |m.s.children| ==> t.s.children[d] == m.s.children[d];
    OwnedIff(m.s, c);
    OwnedIff(t.s, c);
    assert Captured(t, c) <==> Captured(m, c) by {
      assert forall j :: 0 <= j < |m.takings| ==>
        t.takings[j].captured == m.takings[j].captured && (t.takings[j].stage == Begun <==> m.takings[j].stage == Begun);
    }
  }

  lemma {:induction false} PartLoses(m: Moment, p: Part, now: int, c: nat)
    requires Sane(m) && Possible(m, p, now)
    ensures Sane(After(m, p, now))
    ensures Lost(After(m, p, now), c) <==> Lost(m, c) || LetsGo(m, p, c)
  {
    match p
    case Whole(_) => WholeLoses(m, p, now, c);
    case Starts(_, _) => WholeLoses(m, p, now, c);
    case Admits(_) => WholeLoses(m, p, now, c);
    case Begins(_, _) => TakesLoses(m, p, now, c);
    case Rewinds(id) => if Rewindable(m.s, id) { TakesLoses(m, p, now, c); }
    case Waits(k) => WaitsLoses(m, k, now, c);
    case Closes(k) => ClosesLoses(m, k, now, c);
  }

  lemma {:induction false} SplitRunSane(moments: seq<Moment>, parts: seq<(Part, int)>, i: nat)
    requires IsSplitRun(moments, parts) && i < |moments|
    ensures Sane(moments[i])
  {
    if i > 0 {
      SplitRunSane(moments, parts, i - 1);
      PartLoses(moments[i - 1], parts[i - 1].0, parts[i - 1].1, 0);
    }
  }

  /** Up to a moment of a run, some stop let go of child `c`. */
  ghost predicate LetGoBefore(moments: seq<Moment>, parts: seq<(Part, int)>, i: nat, c: nat)
    requires i <= |parts| && i <= |moments|
  {
    exists k :: 0 <= k < i && LetsGo(moments[k], parts[k].0, c)
  }

  lemma {:induction false} LetGoStep(moments: seq<Moment>, parts: seq<(Part, int)>, i: nat, c: nat)
    requires 0 < i <= |parts| && i <= |moments|
    ensures LetGoBefore(moments, parts, i, c)
      <==> LetGoBefore(moments, parts, i - 1, c) || LetsGo(moments[i - 1], parts[i - 1].0, c)
  {
  }

  /**
   Over every run with the sections apart: a child is lost exactly if the last section of some stop let go of
   it, and once lost it stays so.
   */
  lemma {:induction false} LostIff(moments: seq<Moment>, parts: seq<(Part, int)>, i: nat, c: nat)
    requires IsSplitRun(moments, parts) && i < |moments|
    ensures Lost(moments[i], c) <==> LetGoBefore(moments, parts, i, c)
  {
    if i > 0 {
      LostIff(moments, parts, i - 1, c);
      SplitRunSane(moments, parts, i - 1);
      PartLoses(moments[i - 1], parts[i - 1].0, parts[i - 1].1, c);
      LetGoStep(moments, parts, i, c);
    }
  }

  // ------------------------------------------------------------- starting apart

  /** A stop of `id` is under way. */
  ghost predicate UnderWay(m: Moment, id: Id) {
    exists k :: 0 <= k < |m.takings| && IsUnderWay(m.takings[k]) && m.takings[k].id == id
  }

  predicate IsUnderWay(taking: Taking) { taking.stops && taking.stage != Finished }

  /** What a stop under way has captured is all its record can still have. */
  ghost predicate Apart(m: Moment) {
    forall k :: 0 <= k < |m.takings| && IsUnderWay(m.takings[k]) ==>
      var left := ProcessOf(m.s, m.takings[k].id);
      && left in {None, m.takings[k].captured}
      && (m.takings[k].stage == Waited && left.Some? ==> left.value < |m.s.children| && m.s.children[left.value].waited)
  }

  /** Nobody starts a child for a session a stop of which is under way. */
  ghost predicate InTurn(m: Moment, p: Part) { p.Starts? ==> !UnderWay(m, p.id) }

  /** A step after which the stops under way find in their records what they found before, or nothing. */
  lemma {:induction false} StaysApart(m: Moment, t: Moment)
    requires Apart(m) && t.takings == m.takings && |m.s.children| <= |t.s.children|
    requires forall k :: 0 <= k < |m.takings| && IsUnderWay(m.takings[k]) ==>
      ProcessOf(t.s, m.takings[k].id) in {None, ProcessOf(m.s, m.takings[k].id)}
    requires forall c :: 0 <= c < |m.s.children| && m.s.children[c].waited ==> t.s.children[c].waited
    ensures Apart(t)
  {
  }

  lemma {:induction false} WholeApart(m: Moment, p: Part, now: int)
    requires Sane(m) && Apart(m) && Possible(m, p, now) && InTurn(m, p) && (p.Whole? || p.Starts? || p.Admits?)
    ensures Apart(After(m, p, now))
  {
    var t := After(m, p, now);
    match p
    case Whole(call) => OthersSame(m, call, now); StaysApart(m, t);
    case Starts(id, spawned) =>
      StartCarries(m.s, id, spawned);
      forall k | 0 <= k < |m.takings| && IsUnderWay(m.takings[k])
        ensures ProcessOf(t.s, m.takings[k].id) == ProcessOf(m.s, m.takings[k].id)
      {
        assert UnderWay(m, m.takings[k].id);
      }
      StaysApart(m, t);
    case Admits(id) =>
      assert forall o :: ProcessOf(t.s, o) == ProcessOf(m.s, o);
      StaysApart(m, t);
  }

  lemma {:induction false} TakesApart(m: Moment, p: Part, now: int)
    requires Sane(m) && Apart(m) && Possible(m, p, now) && (p.Begins? || p.Rewinds?)
    ensures Apart(After(m, p, now))
  {
    var t := After(m, p, now);
    assert forall o :: ProcessOf(t.s, o) in {None, ProcessOf(m.s, o)} && (o != p.id ==> ProcessOf(t.s, o) == ProcessOf(m.s, o));
    assert forall k :: 0 <= k < |m.takings| ==> t.takings[k] == m.takings[k];
  }

  lemma {:induction false} StopApart(m: Moment, p: Part, now: int)
    requires Sane(m) && Apart(m) && Possible(m, p, now) && (p.Waits? || p.Closes?)
    ensures Apart(After(m, p, now))
  {
    var t := After(m, p, now);
    assert forall j :: 0 <= j < |m.takings| && j != p.taking ==> t.takings[j] == m.takings[j];
    match p
    case Waits(k) => assert forall id :: ProcessOf(t.s, id) == ProcessOf(m.s, id);
    case Closes(k) =>
      assert forall o :: ProcessOf(t.s, o) == if o == m.takings[k].id then None else ProcessOf(m.s, o);
  }

  /**
   So nothing is lost in a run in which nobody starts a child for a session while a stop of it is under
   way, however the sections are interleaved otherwise.
   */
  lemma {:induction false} InTurnLosesNothing(moments: seq<Moment>, parts: seq<(Part, int)>, i: nat, c: nat)
    requires IsSplitRun(moments, parts) && i < |moments|
    requires forall k :: 0 <= k < i ==> InTurn(moments[k], parts[k].0)
    ensures Apart(moments[i]) && !Lost(moments[i], c)
  {
    if i > 0 {
      var m, p, now := moments[i - 1], parts[i - 1].0, parts[i - 1].1;
      InTurnLosesNothing(moments, parts, i - 1, c);
      SplitRunSane(moments, parts, i - 1);
      if p.Begins? || p.Rewinds? { TakesApart(m, p, now); }
      else if p.Waits? || p.Closes? { StopApart(m, p, now); }
      else { WholeApart(m, p, now); }
      PartLoses(m, p, now, c);
    }
  }
}

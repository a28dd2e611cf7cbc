/** When a session is idle: its clock, its holder and its end, told by the calls of a run alone. */
module SessionUse {
  import opened Wrappers
  import opened PlaybackPolicy
  import opened SessionProtocol
  import opened SessionRuns
  import opened SessionIndex
  import opened SessionGuarantees

  predicate IsOpen(reader: Reader) { reader.phase != Closed && reader.phase != Abandoned }

  /**
   The call uses session `id`: it is the one `create` returns, a reader of it is admitted, takes a turn or lets
   go, or its holder releases it.  A generator lets go only once it has started, and takes no turn without a child.
   */
  ghost predicate Uses(s: State, e: Event, now: int, id: Id)
    requires Enabled(s, e, now)
  {
    match e
    case CreateCall(newId, source, ok, d, owner) => Create(s, newId, source, ok, d, owner, now).1 == Returned(id)
    case AttachCall(other, spawned) => other == id && Attach(s, id, spawned, now).1.Returned?
    case ReadDirectCall(other) => other == id
    case NextCall(r, _) =>
      s.readers[r].session == id && IsOpen(s.readers[r]) && (s.readers[r].direct || ChildOf(s, r).Some?)
    case CloseCall(r) =>
      s.readers[r].session == id && IsOpen(s.readers[r]) && (s.readers[r].direct || s.readers[r].phase != Unstarted)
    case ReleaseCall(other) => other == id
    case _ => false
  }

  /** When the last call that used `id` was made. */
  ghost function LastUse(states: seq<State>, events: seq<(Event, int)>, i: nat, id: Id): Option<int>
    requires IsRun(states, events) && i < |states|
  {
    if i == 0 then None
    else if Uses(states[i - 1], events[i - 1].0, events[i - 1].1, id) then Some(events[i - 1].1)
    else LastUse(states, events, i - 1, id)
  }

  /** Who holds `id`: whom the last `create` that returned it named, if it has not been released since. */
  ghost function Holder(states: seq<State>, events: seq<(Event, int)>, i: nat, id: Id): Option<string>
    requires IsRun(states, events) && i < |states|
  {
    if i == 0 then None
    else
      var e := events[i - 1].0;
      if e == ReleaseCall(id) then None
      else if e.CreateCall? && e.owner.Some? && Uses(states[i - 1], e, events[i - 1].1, id) then e.owner
      else Holder(states, events, i - 1, id)
  }

  // ------------------------------------------------------------- one call

  /** A call that uses `id` notes the time, and no other call changes what is noted. */
  ghost predicate Notes(s: State, t: State, now: int, id: Id, used: bool) {
    id in t.sessions ==>
      if used then t.sessions[id].lastSeen == now
      else id in s.sessions && t.sessions[id].lastSeen == s.sessions[id].lastSeen
  }

  lemma {:induction false} StopEachNotes(s: State, doomed: seq<(Id, StopReason)>, now: int, id: Id)
    requires id in s.sessions
    ensures var t := StopEach(s, doomed, now);
      id in t.sessions && t.sessions[id].lastSeen == s.sessions[id].lastSeen && t.sessions[id].owner == s.sessions[id].owner
    decreases |doomed|
  {
    if doomed != [] { StopEachNotes(s, doomed[..|doomed| - 1], now, id); }
  }

  /** The record is used by neither the rewind nor the start of a child, and ends in neither. */
  ghost predicate Unused(s: State, t: State, id: Id) {
    && (id in t.sessions <==> id in s.sessions)
    && (id in t.sessions ==>
          && t.sessions[id].lastSeen == s.sessions[id].lastSeen && t.sessions[id].owner == s.sessions[id].owner
          && t.sessions[id].stoppedAt == s.sessions[id].stoppedAt
          && (t.sessions[id].state == Stopped <==> s.sessions[id].state == Stopped))
  }

  lemma {:induction false} RewindUnused(s: State, other: Id, id: Id)
    requires RecordsOk(s) && other in s.sessions
    ensures Unused(s, Rewind(s, other), id) && other in Rewind(s, other).sessions
  {
    assert RecordOk(s.sessions[other], s.children);
  }

  lemma {:induction false} StartUnused(s: State, other: Id, spawned: bool, id: Id)
    requires other in s.sessions
    ensures Unused(s, Start(s, other, spawned).0, id)
  {
  }

  lemma {:induction false} AttachNotes(s: State, other: Id, spawned: bool, now: int, id: Id)
    requires Inv(s)
    ensures var t := Attach(s, other, spawned, now).0;
      && Notes(s, t, now, id, other == id && Attach(s, id, spawned, now).1.Returned?)
      && (id in t.sessions <==> id in s.sessions)
      && (id in t.sessions ==>
            && t.sessions[id].owner == s.sessions[id].owner && t.sessions[id].stoppedAt == s.sessions[id].stoppedAt
            && (t.sessions[id].state == Stopped <==> s.sessions[id].state == Stopped))
  {
    if other in s.sessions && s.sessions[other].mode != DirectMode {
      hide Rewind, Start, RecordsOk;
      RunsOfRecords(s);
      RewindUnused(s, other, id);
      StartUnused(Rewind(s, other), other, spawned, id);
    }
  }

  lemma {:induction false} RunsOfRecords(s: State)
    requires Inv(s)
    ensures RecordsOk(s)
  {
  }

  lemma {:induction false} TurnNotes(s: State, r: nat, n: nat, now: int, id: Id)
    requires Inv(s) && r < |s.readers|
    ensures Notes(s, Next(s, r, n, now), now, id, Uses(s, NextCall(r, n), now, id))
    ensures id in Next(s, r, n, now).sessions ==>
      id in s.sessions && Next(s, r, n, now).sessions[id].owner == s.sessions[id].owner
  {
  }

  lemma {:induction false} CloseNotes(s: State, r: nat, now: int, id: Id)
    requires Inv(s) && r < |s.readers|
    ensures Notes(s, Close(s, r, now), now, id, Uses(s, CloseCall(r), now, id))
    ensures id in Close(s, r, now).sessions ==>
      id in s.sessions && Close(s, r, now).sessions[id].owner == s.sessions[id].owner
  {
  }

  lemma {:induction false} StepNotes(s: State, e: Event, now: int, id: Id)
    requires Inv(s) && Enabled(s, e, now)
    ensures Notes(s, Step(s, e, now), now, id, Uses(s, e, now, id))
  {
    match e
    case CreateCall(newId, source, ok, d, owner) =>
    case AttachCall(other, spawned) => AttachNotes(s, other, spawned, now, id);
    case ReadDirectCall(_) =>
    case NextCall(r, n) => TurnNotes(s, r, n, now, id);
    case CloseCall(r) => CloseNotes(s, r, now, id);
    case ReleaseCall(_) =>
    case StopCall(_, _) =>
    case ReapCall(_, _, doomed) => StopEachDomain(s, doomed, now); if id in s.sessions { StopEachNotes(s, doomed, now, id); }
    case ForgetCall(_) =>
    case ShutdownCall(doomed) => StopEachDomain(s, doomed, now); if id in s.sessions { StopEachNotes(s, doomed, now, id); }
  }

  /** Only a release and a `create` that names somebody change who holds a session. */
  lemma {:induction false} StepHolds(s: State, e: Event, now: int, id: Id)
    requires Inv(s) && Enabled(s, e, now) && id in Step(s, e, now).sessions
    ensures Step(s, e, now).sessions[id].owner
      == if e == ReleaseCall(id) then None
         else if e.CreateCall? && e.owner.Some? && Uses(s, e, now, id) then e.owner
         else if id in s.sessions then s.sessions[id].owner else None
  {
    match e
    case CreateCall(newId, source, ok, d, owner) =>
    case AttachCall(other, spawned) => AttachNotes(s, other, spawned, now, id);
    case ReadDirectCall(_) =>
    case NextCall(r, n) => TurnNotes(s, r, n, now, id);
    case CloseCall(r) => CloseNotes(s, r, now, id);
    case ReleaseCall(_) =>
    case StopCall(_, _) =>
    case ReapCall(_, _, doomed) => StopEachDomain(s, doomed, now); if id in s.sessions { StopEachNotes(s, doomed, now, id); }
    case ForgetCall(_) =>
    case ShutdownCall(doomed) => StopEachDomain(s, doomed, now); if id in s.sessions { StopEachNotes(s, doomed, now, id); }
  }

  // ------------------------------------------------------------- over runs

  /** The call at `i` of a run. */
  lemma {:induction false} RunStep(states: seq<State>, events: seq<(Event, int)>, i: nat)
    requires IsRun(states, events) && i < |events|
    ensures |states| == |events| + 1 && Inv(states[i]) && Enabled(states[i], events[i].0, events[i].1)
    ensures states[i + 1] == Step(states[i], events[i].0, events[i].1)
  {
    RunKeeps(states, events, i);
  }

  lemma {:induction false} RunLength(states: seq<State>, events: seq<(Event, int)>)
    requires IsRun(states, events)
    ensures |states| == |events| + 1
  {
  }

  lemma {:induction false} NoneAtFirst(states: seq<State>, events: seq<(Event, int)>, i: nat, id: Id)
    requires IsRun(states, events) && i < |states| && id in states[i].sessions
    ensures 0 < i <= |events|
  {
  }

  /** In every run what a session's clock shows is when it was last used. */
  lemma {:induction false} LastSeenIsLastUse(states: seq<State>, events: seq<(Event, int)>, i: nat, id: Id)
    requires IsRun(states, events) && i < |states| && id in states[i].sessions
    ensures LastUse(states, events, i, id) == Some(states[i].sessions[id].lastSeen)
  {
    hide IsRun, Inv, Enabled, Step, Uses;
    NoneAtFirst(states, events, i, id);
    RunStep(states, events, i - 1);
    StepNotes(states[i - 1], events[i - 1].0, events[i - 1].1, id);
    if !Uses(states[i - 1], events[i - 1].0, events[i - 1].1, id) { LastSeenIsLastUse(states, events, i - 1, id); }
  }

  lemma {:induction false} IssuedStay(states: seq<State>, events: seq<(Event, int)>, i: nat)
    requires IsRun(states, events) && i < |events|
    ensures states[i].issued <= states[i + 1].issued && states[i + 1].sessions.Keys <= states[i + 1].issued
  {
    RunKeeps(states, events, i + 1);
    var s, e, now := states[i], events[i].0, events[i].1;
    match e
    case ReapCall(_, _, doomed) => StopEachDomain(s, doomed, now);
    case ShutdownCall(doomed) => StopEachDomain(s, doomed, now);
    case NextCall(r, n) => TurnIssues(s, r, n, now);
    case CloseCall(r) => TurnIssues(s, r, 0, now);
    case _ =>
  }

  lemma {:induction false} TurnIssues(s: State, r: nat, n: nat, now: int)
    requires r < |s.readers|
    ensures Next(s, r, n, now).issued == s.issued && Close(s, r, now).issued == s.issued
  {
  }

  lemma {:induction false} UnissuedUnheld(states: seq<State>, events: seq<(Event, int)>, i: nat, id: Id)
    requires IsRun(states, events) && i < |states| && id !in states[i].issued
    ensures Holder(states, events, i, id) == None
  {
    if i > 0 {
      IssuedStay(states, events, i - 1);
      UnissuedUnheld(states, events, i - 1, id);
      RunKeeps(states, events, i - 1);
    }
  }

  /** And its owner is whom that says. */
  lemma {:induction false} OwnerIsHolder(states: seq<State>, events: seq<(Event, int)>, i: nat, id: Id)
    requires IsRun(states, events) && i < |states| && id in states[i].sessions
    ensures states[i].sessions[id].owner == Holder(states, events, i, id)
  {
    hide IsRun, Inv, Enabled, Step, Uses;
    NoneAtFirst(states, events, i, id);
    RunStep(states, events, i - 1);
    StepHolds(states[i - 1], events[i - 1].0, events[i - 1].1, id);
    if id in states[i - 1].sessions { OwnerIsHolder(states, events, i - 1, id); }
    else { MadeNow(states, events, i - 1, id); UnissuedUnheld(states, events, i - 1, id); }
  }

  lemma {:induction false} MadeNow(states: seq<State>, events: seq<(Event, int)>, i: nat, id: Id)
    requires IsRun(states, events) && i < |events| && id in states[i + 1].sessions && id !in states[i].sessions
    ensures id !in states[i].issued
  {
    RunKeeps(states, events, i);
    SessionsKeepTheirKeys(states[i], events[i].0, events[i].1, id);
  }

  lemma {:induction false} StopEachSays(s: State, doomed: seq<(Id, StopReason)>, now: int, i: nat)
    requires i < |doomed| && doomed[i].0 in s.sessions && s.sessions[doomed[i].0].state != Stopped
    requires forall j, k :: 0 <= j < k < |doomed| ==> doomed[j].0 != doomed[k].0
    ensures doomed[i].0 in StopEach(s, doomed, now).sessions
    ensures StopEach(s, doomed, now).sessions[doomed[i].0].reason == Some(doomed[i].1)
    decreases |doomed|
  {
    var last := |doomed| - 1;
    StopEachDomain(s, doomed[..last], now);
    if i < last {
      assert doomed[..last][i] == doomed[i] && doomed[last].0 != doomed[i].0;
      StopEachSays(s, doomed[..last], now, i);
    } else {
      forall j | 0 <= j < last ensures doomed[..last][j].0 != doomed[last].0 { assert doomed[..last][j] == doomed[j]; }
      StopEachSpares(s, doomed[..last], now, doomed[last].0);
    }
  }

  lemma {:induction false} Reaped(s: State, ttl: nat, exited: set<nat>, doomed: seq<(Id, StopReason)>, now: int, id: Id)
    requires IsDoomed(s, now, ttl, exited, doomed) && id in s.sessions && Inv(StopEach(s, doomed, now))
    ensures var t := StopEach(s, doomed, now);
      && id in t.sessions
      && match Verdict(s.sessions[id], now, ttl, exited)
         case Some(reason) =>
           t.sessions[id].state == Stopped && t.sessions[id].process == None && t.sessions[id].reason == Some(reason)
         case None => t.sessions[id] == s.sessions[id]
  {
    StopEachDomain(s, doomed, now);
    if Verdict(s.sessions[id], now, ttl, exited).Some? {
      var k :| 0 <= k < |doomed| && doomed[k].0 == id;
      StopEachStops(s, doomed, now, k);
      StopEachSays(s, doomed, now, k);
      assert RecordOk(StopEach(s, doomed, now).sessions[id], StopEach(s, doomed, now).children);
    } else {
      StopEachSpares(s, doomed, now, id);
    }
  }

  /** Nobody has held `id` or used it for longer than its allowance, which is four times as long for a direct one. */
  ghost predicate Idles(states: seq<State>, events: seq<(Event, int)>, i: nat, id: Id, now: int, ttl: nat)
    requires IsRun(states, events) && i < |states| && id in states[i].sessions
  {
    && Holder(states, events, i, id) == None && Uncollected(states[i].readers, id) == 0
    && LastUse(states, events, i, id).Some?
    && now - LastUse(states, events, i, id).value > if states[i].sessions[id].mode == DirectMode then ttl * 4 else ttl
  }

  /**
   The reaper ends exactly the live sessions that idle, as the calls before it have it, and those whose child
   has exited, and leaves every other record as it was.
   */
  lemma {:induction false} ReapIsJust(states: seq<State>, events: seq<(Event, int)>, i: nat, id: Id)
    requires IsRun(states, events) && i < |events| && events[i].0.ReapCall? && id in states[i].sessions
    ensures id in states[i + 1].sessions
    ensures var before, after := states[i].sessions[id], states[i + 1].sessions[id];
      var idle := Idles(states, events, i, id, events[i].1, events[i].0.ttl);
      if Live(before.state) && (idle || (before.process.Some? && before.process.value in events[i].0.exited))
      then after.state == Stopped && after.process == None && after.reason == Some(if idle then Idle else ChildExited)
      else after == before
  {
    RunKeeps(states, events, i);
    RunKeeps(states, events, i + 1);
    LastSeenIsLastUse(states, events, i, id);
    OwnerIsHolder(states, events, i, id);
    Reaped(states[i], events[i].0.ttl, events[i].0.exited, events[i].0.doomed, events[i].1, id);
  }

  lemma {:induction false} UsedSince(states: seq<State>, events: seq<(Event, int)>, k: nat, i: nat, id: Id)
    requires IsRun(states, events) && k < i < |states| && Uses(states[k], events[k].0, events[k].1, id)
    requires forall m, n :: k <= m <= n < i ==> events[m].1 <= events[n].1
    ensures LastUse(states, events, i, id).Some? && LastUse(states, events, i, id).value >= events[k].1
    decreases i
  {
    if k < i - 1 && !Uses(states[i - 1], events[i - 1].0, events[i - 1].1, id) { UsedSince(states, events, k, i - 1, id); }
  }

  /**
   So on a clock that does not go back a session is never ended as idle within its allowance of any call that
   used it, the end of its last reader above all: as long as its child runs it is left as it was.
   */
  lemma {:induction false} SparedWithinAllowance(states: seq<State>, events: seq<(Event, int)>, k: nat, i: nat, id: Id)
    requires IsRun(states, events) && k < i < |events| && events[i].0.ReapCall? && id in states[i].sessions
    requires Uses(states[k], events[k].0, events[k].1, id)
    requires forall m, n :: k <= m <= n <= i ==> events[m].1 <= events[n].1
    requires events[i].1 - events[k].1 <= events[i].0.ttl
    requires states[i].sessions[id].process.Some? ==> states[i].sessions[id].process.value !in events[i].0.exited
    ensures id in states[i + 1].sessions && states[i + 1].sessions[id] == states[i].sessions[id]
  {
    ReapIsJust(states, events, i, id);
    UsedSince(states, events, k, i, id);
  }

  // ------------------------------------------------------------- what is left of a session

  /** The call forgets what was stopped at `time`. */
  predicate Forgets(e: Event, now: int, time: int) { e.ForgetCall? && time < now - e.age }

  lemma {:induction false} StopEachStoppedAt(s: State, doomed: seq<(Id, StopReason)>, now: int, id: Id)
    requires id in s.sessions
    ensures var t := StopEach(s, doomed, now);
      && id in t.sessions
      && (s.sessions[id].state == Stopped ==> t.sessions[id] == s.sessions[id])
      && (s.sessions[id].state != Stopped && t.sessions[id].state == Stopped ==> t.sessions[id].stoppedAt == Some(now))
    decreases |doomed|
  {
    if doomed != [] { StopEachStoppedAt(s, doomed[..|doomed| - 1], now, id); }
  }

  /** A record stopped at `time`. */
  predicate StoppedThen(s: State, id: Id, time: int) {
    id in s.sessions && s.sessions[id].state == Stopped && s.sessions[id].stoppedAt == Some(time)
  }

  lemma {:induction false} TurnStopped(s: State, r: nat, n: nat, now: int, id: Id)
    requires Inv(s) && r < |s.readers| && id in s.sessions
    ensures var t := Next(s, r, n, now);
      && id in t.sessions && t.sessions[id].state == s.sessions[id].state
      && t.sessions[id].stoppedAt == s.sessions[id].stoppedAt
    ensures var t := Close(s, r, now);
      && id in t.sessions && t.sessions[id].state == s.sessions[id].state
      && t.sessions[id].stoppedAt == s.sessions[id].stoppedAt
  {
  }

  /** A call that stops a session notes when, and later ones leave it noted or forget the record. */
  lemma {:induction false} StepStopped(s: State, e: Event, now: int, id: Id, time: int)
    requires Inv(s) && Enabled(s, e, now) && id in s.sessions
    ensures s.sessions[id].state != Stopped && id in Step(s, e, now).sessions && Step(s, e, now).sessions[id].state == Stopped
      ==> StoppedThen(Step(s, e, now), id, now)
    ensures StoppedThen(s, id, time) ==>
      if Forgets(e, now, time) then id !in Step(s, e, now).sessions else StoppedThen(Step(s, e, now), id, time)
  {
    match e
    case CreateCall(newId, source, ok, d, owner) =>
    case AttachCall(other, spawned) => AttachNotes(s, other, spawned, now, id);
    case ReadDirectCall(_) =>
    case NextCall(r, n) => TurnStopped(s, r, n, now, id);
    case CloseCall(r) => TurnStopped(s, r, 0, now, id);
    case ReleaseCall(_) =>
    case StopCall(_, _) =>
    case ReapCall(_, _, doomed) => StopEachStoppedAt(s, doomed, now, id);
    case ForgetCall(_) =>
    case ShutdownCall(doomed) => StopEachStoppedAt(s, doomed, now, id);
  }

  /** Nothing from `k` to `i` forgets what was stopped at `time`. */
  ghost predicate Unforgotten(events: seq<(Event, int)>, k: nat, i: nat, time: int)
    requires i <= |events|
  {
    forall m :: k <= m < i ==> !Forgets(events[m].0, events[m].1, time)
  }

  lemma {:induction false} UnforgottenStep(events: seq<(Event, int)>, k: nat, i: nat, time: int)
    requires 0 < i <= |events|
    ensures i <= k ==> Unforgotten(events, k, i, time)
    ensures k < i ==> (Unforgotten(events, k, i, time)
                       <==> Unforgotten(events, k, i - 1, time) && !Forgets(events[i - 1].0, events[i - 1].1, time))
  {
  }

  /** What a record stopped at `time` comes to. */
  ghost predicate Rests(s: State, id: Id, time: int, kept: bool) {
    if kept then StoppedThen(s, id, time) else id in s.issued && id !in s.sessions
  }

  lemma {:induction false} StepRests(s: State, e: Event, now: int, id: Id, time: int, kept: bool)
    requires Inv(s) && Enabled(s, e, now) && Rests(s, id, time, kept)
    ensures Rests(Step(s, e, now), id, time, kept && !Forgets(e, now, time))
  {
    assert id in s.issued;
    EndedStep(s, e, now, id);
    if kept { StepStopped(s, e, now, id, time); }
    else if id in Step(s, e, now).sessions { SessionsKeepTheirKeys(s, e, now, id); }
  }

  lemma {:induction false} StopRests(s: State, e: Event, now: int, id: Id)
    requires Inv(s) && Enabled(s, e, now) && id in s.sessions && s.sessions[id].state != Stopped
    requires id in Step(s, e, now).sessions && Step(s, e, now).sessions[id].state == Stopped
    ensures Rests(Step(s, e, now), id, now, true)
  {
    StepStopped(s, e, now, id, now);
  }

  /**
   The record of a session that call `k` stopped is still there at a later moment exactly if no call since has
   forgotten records of an age that one had reached; until then it stays stopped.
   */
  lemma {:induction false} RecordStaysIff(states: seq<State>, events: seq<(Event, int)>, k: nat, i: nat, id: Id)
    requires IsRun(states, events) && k < i < |states| && id in states[k].sessions && states[k].sessions[id].state != Stopped
    requires id in states[k + 1].sessions && states[k + 1].sessions[id].state == Stopped
    ensures id in states[i].sessions <==> Unforgotten(events, k + 1, i, events[k].1)
    ensures id in states[i].sessions ==> StoppedThen(states[i], id, events[k].1)
  {
    RecordRests(states, events, k, i, id);
  }

  lemma {:induction false} RecordRests(states: seq<State>, events: seq<(Event, int)>, k: nat, i: nat, id: Id)
    requires IsRun(states, events) && k < i < |states| && id in states[k].sessions && states[k].sessions[id].state != Stopped
    requires id in states[k + 1].sessions && states[k + 1].sessions[id].state == Stopped
    ensures Rests(states[i], id, events[k].1, Unforgotten(events, k + 1, i, events[k].1))
    decreases i
  {
    hide IsRun, Inv, Enabled, Step, Forgets, Unforgotten, Rests;
    RunLength(states, events);
    RunStep(states, events, i - 1);
    var s, e, now, time := states[i - 1], events[i - 1].0, events[i - 1].1, events[k].1;
    UnforgottenStep(events, k + 1, i, time);
    if i == k + 1 { StopRests(s, e, now, id); }
    else {
      RecordRests(states, events, k, i - 1, id);
      StepRests(s, e, now, id, time, Unforgotten(events, k + 1, i - 1, time));
    }
  }
}

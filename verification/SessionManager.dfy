/**
 The session manager as it is written: records updated in place, two dictionaries and a reaper.  Every
 method leaves exactly the state its transition in `SessionProtocol` gives.
 */
module SessionManager {
  import opened Wrappers
  import opened PlaybackPolicy
  import opened SessionProtocol

  class MediaSession {
    const sessionId: Id
    const source: string
    const mode: SessionMode
    var state: SessionState
    var process: Option<nat>
    var clients: nat
    var served: bool
    var owner: Option<string>
    var lastSeen: int
    var stoppedAt: Option<int>
    var reason: Option<StopReason>

    constructor (sessionId: Id, source: string, mode: SessionMode, owner: Option<string>, now: int)
      ensures this.sessionId == sessionId && View() == NewRec(source, mode, owner, now)
    {
      this.sessionId, this.source, this.mode := sessionId, source, mode;
      state := if mode == DirectMode then Running else Created;
      process, clients, served := None, 0, false;
      this.owner, lastSeen, stoppedAt, reason := owner, now, None, None;
    }

    ghost function View(): Rec
      reads this
    {
      Rec(source, mode, state, process, clients, served, owner, lastSeen, stoppedAt, reason)
    }
  }

  class Manager {
    var sessions: map<Id, MediaSession>
    var bySource: map<Key, Id>
    /** The processes this manager has spawned, in order; a record's process is an index here. */
    var children: seq<Child>
    /** The readers handed out, in order; a handle is an index here. */
    var readers: seq<Reader>
    ghost var issued: set<Id>

    ghost predicate Valid()
      reads this, sessions.Values
    {
      && (forall id :: id in sessions ==> sessions[id].sessionId == id)
      && (forall id :: id in sessions ==>
            sessions[id].process.Some? ==> sessions[id].process.value < |children|)
    }

    ghost function Records(): map<Id, Rec>
      reads this, sessions.Values
    {
      map id | id in sessions :: sessions[id].View()
    }

    ghost function View(): State
      reads this, sessions.Values
    {
      State(Records(), bySource, children, readers, issued)
    }

    /** `session` is a record of this manager. */
    ghost predicate Holds(session: MediaSession)
      reads this
    {
      session.sessionId in sessions && sessions[session.sessionId] == session
    }

    twostate lemma OneChanged(session: MediaSession)
      requires old(Valid()) && Holds(session) && sessions == old(sessions)
      requires forall id :: id in sessions && id != session.sessionId ==> unchanged(sessions[id])
      ensures Records() == old(Records())[session.sessionId := session.View()]
    {
    }

    constructor ()
      ensures Valid() && View() == InitialState && fresh(sessions.Values)
    {
      sessions, bySource, children, readers, issued := map[], map[], [], [], {};
    }

    // ---------------------------------------------------------------- create

    method Create(newId: Id, source: string, ok: Checks, d: Decision, owner: Option<string>, now: int)
      returns (outcome: Outcome)
      requires Valid() && newId !in issued && newId !in sessions
      modifies this, sessions.Values
      ensures Valid() && fresh(sessions.Values - old(sessions.Values))
      ensures View() == SessionProtocol.Create(old(View()), newId, source, ok, d, owner, now).0
      ensures outcome == SessionProtocol.Create(old(View()), newId, source, ok, d, owner, now).1
    {
      if !ok.source { return Raised(SourceRefused); }
      if d.mode == Unsupported { return Raised(SourceUnsupported); }
      var mode := SessionModeFor(ModeWhenChosen(d));
      var key := (source, mode);
      var existing := FindLive(key);
      if existing.Some? {
        Claim(sessions[existing.value], owner, now);
        return Returned(existing.value);
      }
      outcome := Replace(newId, source, mode, Refusal(d, ok.build), owner, now);
    }

    /** The entry of a session that has ended goes, and a new session takes it if it has a command. */
    method Replace(newId: Id, source: string, mode: SessionMode, refusal: Option<Error>, owner: Option<string>, now: int)
      returns (outcome: Outcome)
      requires Valid() && newId !in sessions
      modifies this
      ensures Valid() && fresh(sessions.Values - old(sessions.Values))
      ensures var cleared := old(View()).(bySource := old(View()).bySource - {(source, mode)});
        if mode != DirectMode && refusal.Some? then View() == cleared && outcome == Raised(refusal.value)
        else View() == Insert(cleared, newId, NewRec(source, mode, owner, now)) && outcome == Returned(newId)
    {
      hide Insert, NewRec;
      ghost var cleared := View().(bySource := View().bySource - {(source, mode)});
      bySource := bySource - {(source, mode)};
      assert View() == cleared by { assert Records() == old(Records()); }
      if mode != DirectMode && refusal.Some? { return Raised(refusal.value); }
      Adopt(newId, source, mode, owner, now);
      return Returned(newId);
    }

    method FindLive(key: Key) returns (found: Option<Id>)
      requires Valid()
      ensures found == LiveFor(View(), key)
      ensures found.Some? ==> found.value in sessions
    {
      found := None;
      if key in bySource && bySource[key] in sessions {
        var existing := sessions[bySource[key]];
        if Live(existing.state) { found := Some(bySource[key]); }
      }
    }

    method Claim(session: MediaSession, owner: Option<string>, now: int)
      requires Valid() && Holds(session)
      modifies session
      ensures Valid()
      ensures var rec := old(View()).sessions[session.sessionId];
        View() == WithRec(old(View()), session.sessionId,
                          rec.(lastSeen := now, owner := if owner.Some? then owner else rec.owner))
    {
      session.lastSeen := now;
      if owner.Some? { session.owner := owner; }
      OneChanged(session);
    }

    method Adopt(newId: Id, source: string, mode: SessionMode, owner: Option<string>, now: int)
      requires Valid() && newId !in sessions
      modifies this
      ensures Valid() && fresh(sessions.Values - old(sessions.Values))
      ensures View() == Insert(old(View()), newId, NewRec(source, mode, owner, now))
    {
      var session := new MediaSession(newId, source, mode, owner, now);
      sessions := sessions[newId := session];
      bySource := bySource[(source, mode) := newId];
      issued := issued + {newId};
      assert Records() == old(Records())[newId := session.View()];
      assert View().bySource == old(View()).bySource[(source, mode) := newId];
    }

    // ----------------------------------------------------------------- serve

    method Attach(id: Id, spawned: bool, now: int) returns (outcome: Outcome)
      requires Valid()
      modifies this, sessions.Values
      ensures Valid() && sessions == old(sessions)
      ensures View() == SessionProtocol.Attach(old(View()), id, spawned, now).0
      ensures outcome == SessionProtocol.Attach(old(View()), id, spawned, now).1
    {
      if id !in sessions { return Raised(NotFound); }
      var session := sessions[id];
      if session.mode == DirectMode { return Raised(SessionIsDirect); }
      RewindForANewReader(session);
      var error := Start(session, spawned);
      if error.Some? { return Raised(error.value); }
      outcome := Returned(|readers|);
      Admit(session, false, now);
    }

    method RewindForANewReader(session: MediaSession)
      requires Valid() && Holds(session)
      modifies `children, session
      ensures Valid()
      ensures View() == Rewind(old(View()), session.sessionId)
    {
      if session.clients > 0 || !session.served || session.process.None? { return; }
      var process := session.process.value;
      session.process := None;
      session.served := false;
      session.state := Created;
      children := Terminate(children, process);
      OneChanged(session);
    }

    method Start(session: MediaSession, spawned: bool) returns (error: Option<Error>)
      requires Valid() && Holds(session)
      modifies `children, session
      ensures Valid()
      ensures View() == SessionProtocol.Start(old(View()), session.sessionId, spawned).0
      ensures error == SessionProtocol.Start(old(View()), session.sessionId, spawned).1
    {
      if session.process.Some? { return None; }
      if session.state == Stopping || session.state == Stopped { return Some(SessionStopped); }
      if !spawned {
        session.state := Failed;
        session.reason := Some(StartError);
        OneChanged(session);
        return Some(StartFailed);
      }
      session.process := Some(|children|);
      children := children + [Child(0, false)];
      session.state := Running;
      OneChanged(session);
      return None;
    }

    method Admit(session: MediaSession, direct: bool, now: int)
      requires Valid() && Holds(session)
      modifies `readers, session
      ensures Valid()
      ensures View() == SessionProtocol.Admit(old(View()), session.sessionId, direct, now)
    {
      session.clients := session.clients + 1;
      session.lastSeen := now;
      readers := readers + [Reader(session.sessionId, direct, Unstarted)];
      OneChanged(session);
    }

    method ReadDirect(id: Id, now: int) returns (outcome: Outcome)
      requires Valid()
      modifies this, sessions.Values
      ensures Valid() && sessions == old(sessions)
      ensures View() == SessionProtocol.ReadDirect(old(View()), id, now).0
      ensures outcome == SessionProtocol.ReadDirect(old(View()), id, now).1
    {
      if id !in sessions { return Raised(NotFound); }
      outcome := Returned(|readers|);
      Admit(sessions[id], true, now);
    }

    method Release(id: Id, now: int) returns (outcome: Outcome)
      requires Valid()
      modifies sessions.Values
      ensures Valid()
      ensures View() == SessionProtocol.Release(old(View()), id, now).0
      ensures outcome == SessionProtocol.Release(old(View()), id, now).1
    {
      if id !in sessions { return Raised(NotFound); }
      var session := sessions[id];
      session.owner := None;
      session.lastSeen := now;
      OneChanged(session);
      return Returned(id);
    }

    method Touch(id: Id, now: int)
      requires Valid()
      modifies sessions.Values
      ensures Valid()
      ensures View() == SessionProtocol.Touch(old(View()), id, now)
    {
      if id in sessions {
        var session := sessions[id];
        session.lastSeen := now;
        OneChanged(session);
      }
    }

    method Detach(id: Id, now: int)
      requires Valid()
      modifies sessions.Values
      ensures Valid()
      ensures View() == SessionProtocol.Detach(old(View()), id, now)
    {
      if id in sessions {
        var session := sessions[id];
        if session.clients > 0 { session.clients := session.clients - 1; }
        session.lastSeen := now;
        OneChanged(session);
      }
    }

    method LetGo(r: nat, now: int)
      requires Valid() && r < |readers|
      modifies `readers, sessions.Values
      ensures Valid()
      ensures View() == SessionProtocol.LetGo(old(View()), r, now)
    {
      readers := readers[r := readers[r].(phase := Closed)];
      assert View() == WithPhase(old(View()), r, Closed);
      Detach(readers[r].session, now);
    }

    method Take(r: nat, c: nat, n: nat, now: int)
      requires Valid() && r < |readers| && c < |children|
      modifies `readers, `children, sessions.Values
      ensures Valid()
      ensures View() == SessionProtocol.Take(old(View()), r, c, n, now)
    {
      var id := readers[r].session;
      readers := readers[r := readers[r].(phase := Reading(c))];
      children := children[c := children[c].(pos := children[c].pos + n)];
      if id in sessions {
        var session := sessions[id];
        session.lastSeen := now;
        session.served := true;
        OneChanged(session);
      }
    }

    /** One turn of a reader: `n` bytes were there, none at the end of its stream. */
    method Next(r: nat, n: nat, now: int)
      requires Valid() && r < |readers|
      modifies `readers, `children, sessions.Values
      ensures Valid()
      ensures View() == SessionProtocol.Next(old(View()), r, n, now)
    {
      var reader := readers[r];
      if reader.phase == Closed || reader.phase == Abandoned { return; }
      if reader.direct {
        if n == 0 { LetGo(r, now); } else { Touch(reader.session, now); }
        return;
      }
      var process: Option<nat> := None;
      if reader.phase.Reading? { process := Some(reader.phase.child); }
      else if reader.session in sessions { process := sessions[reader.session].process; }
      if process.None? {
        readers := readers[r := reader.(phase := Abandoned)];
      } else if n == 0 || process.value >= |children| || children[process.value].waited {
        LetGo(r, now);
      } else {
        Take(r, process.value, n, now);
      }
    }

    method Close(r: nat, now: int)
      requires Valid() && r < |readers|
      modifies `readers, sessions.Values
      ensures Valid()
      ensures View() == SessionProtocol.Close(old(View()), r, now)
    {
      var reader := readers[r];
      if reader.phase == Closed || reader.phase == Abandoned { return; }
      if !reader.direct && reader.phase == Unstarted {
        readers := readers[r := reader.(phase := Abandoned)];
      } else {
        LetGo(r, now);
      }
    }

    // ------------------------------------------------------------------ stop

    /** The first section `stop` runs under the lock; the child to wait on is captured in it. */
    method StopBegin(session: MediaSession, reason: StopReason) returns (process: Option<nat>)
      requires Valid() && Holds(session)
      modifies `bySource, session
      ensures Valid() && process == old(session.process)
      ensures View() == SessionProtocol.StopBegin(old(View()), session.sessionId, reason)
    {
      session.state := Stopping;
      session.reason := Some(reason);
      process := session.process;
      bySource := bySource - {(session.source, session.mode)};
      OneChanged(session);
    }

    /** The captured child is waited on, and the second section closes the record. */
    method StopEnd(session: MediaSession, process: Option<nat>, now: int)
      requires Valid() && Holds(session)
      modifies `children, session
      ensures Valid()
      ensures View() == SessionProtocol.StopEnd(old(View()), session.sessionId, process, now)
    {
      if process.Some? && process.value < |children| { children := Terminate(children, process.value); }
      session.state := Stopped;
      session.stoppedAt := Some(now);
      session.clients := 0;
      session.process := None;
      OneChanged(session);
    }

    method Stop(id: Id, reason: StopReason, now: int) returns (stopped: bool)
      requires Valid()
      modifies `bySource, `children, sessions.Values
      ensures Valid()
      ensures View() == SessionProtocol.Stop(old(View()), id, reason, now)
      ensures stopped <==> id in sessions && old(View()).sessions[id].state != Stopped
    {
      if id !in sessions || sessions[id].state == Stopped { return false; }
      var process := StopBegin(sessions[id], reason);
      StopEnd(sessions[id], process, now);
      return true;
    }

    method StopAll(doomed: seq<(Id, StopReason)>, now: int)
      requires Valid()
      modifies `bySource, `children, sessions.Values
      ensures Valid()
      ensures View() == StopEach(old(View()), doomed, now)
    {
      for i := 0 to |doomed|
        invariant Valid()
        invariant View() == StopEach(old(View()), doomed[..i], now)
      {
        assert doomed[..i + 1][..i] == doomed[..i];
        var _ := Stop(doomed[i].0, doomed[i].1, now);
      }
      assert doomed[..|doomed|] == doomed;
    }

    method FindExpired(cutoff: int) returns (expired: set<Id>)
      requires Valid()
      ensures expired == set id | id in Records() && Expired(Records()[id], cutoff)
    {
      expired := set id | id in sessions && sessions[id].state == Stopped
                          && (if sessions[id].stoppedAt.Some? then sessions[id].stoppedAt.value else 0) < cutoff;
      assert forall id :: id in sessions ==> id in Records() && Records()[id] == sessions[id].View();
    }

    method Drop(expired: set<Id>)
      requires Valid() && expired <= sessions.Keys
      modifies `sessions
      ensures Valid() && sessions.Values <= old(sessions.Values)
      ensures View() == var s := old(View()); s.(sessions := map id | id in s.sessions && id !in expired :: s.sessions[id])
      ensures expired == old(sessions).Keys - sessions.Keys
    {
      sessions := map id | id in sessions && id !in expired :: sessions[id];
      RecordsKept(expired);
    }

    method ForgetStopped(now: int, age: int) returns (expired: set<Id>)
      requires Valid()
      modifies `sessions
      ensures Valid() && sessions.Values <= old(sessions.Values)
      ensures View() == Forget(old(View()), now, age)
      ensures expired == old(sessions).Keys - sessions.Keys
    {
      hide Expired, Forget;
      expired := FindExpired(now - age);
      ForgetIs(View(), expired, now, age);
      Drop(expired);
    }

    lemma {:induction false} ForgetIs(s: State, expired: set<Id>, now: int, age: int)
      requires expired == set id | id in s.sessions && Expired(s.sessions[id], now - age)
      ensures Forget(s, now, age) == s.(sessions := map id | id in s.sessions && id !in expired :: s.sessions[id])
    {
    }

    twostate lemma RecordsKept(expired: set<Id>)
      requires sessions.Keys == old(sessions).Keys - expired
      requires forall id :: id in sessions ==> sessions[id] == old(sessions)[id] && unchanged(sessions[id])
      ensures Records() == map id | id in old(Records()) && id !in expired :: old(Records())[id]
    {
    }

    // ---------------------------------------------------------------- reaper

    /** One session, as the reaper looks at it. */
    method Judge(session: MediaSession, now: int, ttl: nat, exited: set<nat>) returns (verdict: Option<StopReason>)
      ensures verdict == Verdict(session.View(), now, ttl, exited)
    {
      if !Live(session.state) { return None; }
      var held := session.owner.Some? || session.clients > 0;
      if session.mode == DirectMode {
        return if !held && now - session.lastSeen > ttl * 4 then Some(Idle) else None;
      }
      if !held && now - session.lastSeen > ttl { return Some(Idle); }
      return if session.process.Some? && session.process.value in exited then Some(ChildExited) else None;
    }

    /** `doomed` lists every session among those looked at whose deadline has passed, once each. */
    static ghost predicate Looked(s: State, among: set<Id>, now: int, ttl: nat, exited: set<nat>,
                                  doomed: seq<(Id, StopReason)>)
    {
      && (forall i :: 0 <= i < |doomed| ==>
            doomed[i].0 in among && doomed[i].0 in s.sessions
            && Verdict(s.sessions[doomed[i].0], now, ttl, exited) == Some(doomed[i].1))
      && (forall i, j :: 0 <= i < j < |doomed| ==> doomed[i].0 != doomed[j].0)
      && (forall id :: id in among && id in s.sessions && Verdict(s.sessions[id], now, ttl, exited).Some? ==>
            exists i :: 0 <= i < |doomed| && doomed[i].0 == id)
    }

    static lemma {:induction false} LookOne(s: State, among: set<Id>, id: Id, now: int, ttl: nat, exited: set<nat>,
                                            doomed: seq<(Id, StopReason)>)
      requires Looked(s, among, now, ttl, exited, doomed) && id in s.sessions && id !in among
      ensures var verdict := Verdict(s.sessions[id], now, ttl, exited);
        Looked(s, among + {id}, now, ttl, exited, doomed + if verdict.Some? then [(id, verdict.value)] else [])
    {
      hide Verdict;
      var verdict := Verdict(s.sessions[id], now, ttl, exited);
      var more := doomed + if verdict.Some? then [(id, verdict.value)] else [];
      assert forall i :: 0 <= i < |doomed| ==> more[i] == doomed[i];
      if verdict.Some? { assert more[|doomed|].0 == id; }
    }

    /** Every session whose deadline has passed, with the reason, as the reaper's one look finds them. */
    method FindDoomed(now: int, ttl: nat, exited: set<nat>) returns (doomed: seq<(Id, StopReason)>)
      requires Valid()
      ensures IsDoomed(View(), now, ttl, exited, doomed)
    {
      hide Verdict;
      doomed := [];
      var left := sessions.Keys;
      while left != {}
        invariant left <= sessions.Keys && Looked(View(), sessions.Keys - left, now, ttl, exited, doomed)
        decreases left
      {
        hide Looked;
        var id :| id in left;
        LookOne(View(), sessions.Keys - left, id, now, ttl, exited, doomed);
        assert sessions.Keys - (left - {id}) == sessions.Keys - left + {id};
        left := left - {id};
        var verdict := Judge(sessions[id], now, ttl, exited);
        if verdict.Some? { doomed := doomed + [(id, verdict.value)]; }
        else { assert doomed + [] == doomed; }
      }
    }

    method ReapOnce(now: int, ttl: nat, exited: set<nat>) returns (doomed: seq<(Id, StopReason)>)
      requires Valid()
      modifies `bySource, `children, sessions.Values
      ensures Valid()
      ensures IsDoomed(old(View()), now, ttl, exited, doomed)
      ensures View() == StopEach(old(View()), doomed, now)
    {
      doomed := FindDoomed(now, ttl, exited);
      StopAll(doomed, now);
    }

    /** Every live session, as shutdown goes through them. */
    method Active() returns (active: seq<(Id, StopReason)>)
      requires Valid()
      ensures IsActive(View(), active)
    {
      active := [];
      var left := sessions.Keys;
      while left != {}
        invariant left <= sessions.Keys
        invariant forall i :: 0 <= i < |active| ==>
          && active[i].0 in sessions && active[i].0 !in left
          && Live(Records()[active[i].0].state) && active[i].1 == ShutDown
        invariant forall i, j :: 0 <= i < j < |active| ==> active[i].0 != active[j].0
        invariant forall id :: id in sessions && id !in left && Live(Records()[id].state) ==>
          exists i :: 0 <= i < |active| && active[i].0 == id
        decreases left
      {
        var id :| id in left;
        left := left - {id};
        var before := active;
        if Live(sessions[id].state) {
          active := active + [(id, ShutDown)];
          assert active[|before|].0 == id;
        }
        assert forall i :: 0 <= i < |before| ==> active[i] == before[i];
      }
    }

    method Shutdown(now: int) returns (active: seq<(Id, StopReason)>)
      requires Valid()
      modifies `bySource, `children, sessions.Values
      ensures Valid()
      ensures IsActive(old(View()), active)
      ensures View() == StopEach(old(View()), active, now)
    {
      active := Active();
      StopAll(active, now);
    }
  }
}

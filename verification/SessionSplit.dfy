/**
 What the lock boundaries inside one call cost.  `stop` lets its lock go while it waits on the child,
 `attach` between its sections, and the reaper between looking and stopping; other calls run in between.
 */
module SessionSplit {
  import opened Wrappers
  import opened PlaybackPolicy
  import opened SessionProtocol
  import opened SessionRuns
  import opened SessionIndex
  import opened SessionGuarantees
  import opened SessionSections

  /** Each process a record holds is a spawned child. */
  ghost predicate InRange(s: State) {
    forall id :: id in s.sessions && s.sessions[id].process.Some? ==> s.sessions[id].process.value < |s.children|
  }

  /**
   The second section of `stop` orphans nothing exactly when, at that moment, the record still has the
   child the first section captured, or none, or one that was waited on already.
   */
  lemma {:induction false} StopEndOrphansNothingIff(s: State, id: Id, captured: Option<nat>, now: int)
    requires id in s.sessions && NoOrphan(s) && Unshared(s) && InRange(s)
    ensures NoOrphan(StopEnd(s, id, captured, now)) <==>
      var held := s.sessions[id].process;
      held == None || held == captured || s.children[held.value].waited
  {
    var t := StopEnd(s, id, captured, now);
    var held := s.sessions[id].process;
    if held == None || held == captured || s.children[held.value].waited {
      forall c | 0 <= c < |t.children| && !t.children[c].waited ensures Owned(t, c) {
        assert Owned(s, c);
        var o :| o in s.sessions && s.sessions[o].process == Some(c);
        assert o in t.sessions && t.sessions[o].process == Some(c);
      }
    } else {
      assert !t.children[held.value].waited && !Owned(t, held.value);
    }
  }

  // A relayed session that is made, read once and left, a stop of it, and an attach into the stop: with what that
  // attach goes on to do, or a call that makes a session in between.  And an attach begun before the first
  // reader left, which goes on after.
  const Choice := Decision(Remux, false, true, true, true)
  const K: Key := ("u", RemuxMode)
  const Fresh := NewRec("u", RemuxMode, None, 0)
  const Spawned := Fresh.(state := Running, process := Some(0))
  const Started := Spawned.(clients := 1)
  const Served := Started.(clients := 0, served := true)
  const Captive := Served.(state := Stopping, reason := Some(Requested))
  const Rewound := Captive.(state := Created, process := None, served := false)
  const Revived := Rewound.(state := Running, process := Some(1))
  const Joined := Revived.(clients := 1)
  const EndedIt := Joined.(state := Stopped, process := None, clients := 0, stoppedAt := Some(0))

  const OldReader := Reader(0, false, Closed)
  const NewReader := Reader(0, false, Unstarted)

  const StopsIt := Taking(0, Some(0), Begun, true)
  const RewindsIt := Taking(0, Some(0), Begun, false)
  const RewoundIt := RewindsIt.(stage := Finished)

  function Live1(rec: Rec, children: seq<Child>, readers: seq<Reader>): Moment {
    Moment(State(map[0 := rec], map[K := 0], children, readers, {0}), [])
  }

  function Unindexed(rec: Rec, children: seq<Child>, readers: seq<Reader>, takings: seq<Taking>): Moment {
    Moment(State(map[0 := rec], map[], children, readers, {0}), takings)
  }

  const AtMade := Live1(Fresh, [], [])
  const AtStarted := Live1(Spawned, [Child(0, false)], [])
  const AtAdmitted := Live1(Started, [Child(0, false)], [NewReader])
  const AtRead := Live1(Started.(served := true), [Child(1, false)], [Reader(0, false, Reading(0))])
  const AtLeft := Live1(Served, [Child(1, false)], [OldReader])
  const AtStopping := Unindexed(Captive, [Child(1, false)], [OldReader], [StopsIt])
  const AtRewound := Unindexed(Rewound, [Child(1, false)], [OldReader], [StopsIt, RewindsIt])
  const AtRewindWaited := Unindexed(Rewound, [Child(1, true)], [OldReader], [StopsIt, RewoundIt])
  const AtRestarted := Unindexed(Revived, [Child(1, true), Child(0, false)], [OldReader], [StopsIt, RewoundIt])
  const AtJoined := Unindexed(Joined, [Child(1, true), Child(0, false)], [OldReader, NewReader], [StopsIt, RewoundIt])
  const AtWaited := Unindexed(Joined, [Child(1, true), Child(0, false)], [OldReader, NewReader],
                              [StopsIt.(stage := Waited), RewoundIt])
  const AtClosed := Unindexed(EndedIt, [Child(1, true), Child(0, false)], [OldReader, NewReader],
                              [StopsIt.(stage := Finished), RewoundIt])

  const AtTwo := Moment(State(map[0 := Rewound, 1 := Fresh], map[K := 1], [Child(1, false)], [OldReader], {0, 1}),
                        [StopsIt, RewindsIt])
  const AtLate := Live1(Served.(clients := 1), [Child(1, false)], [OldReader, NewReader])

  ghost predicate Leads(m: Moment, p: Part, n: Moment) { Possible(m, p, 0) && After(m, p, 0) == n }

  const Making := Whole(CreateCall(0, "u", Checks(true, Built), Choice, None))
  const TurnOfFirst := Whole(NextCall(0, 1))
  const MakingAgain := Whole(CreateCall(1, "u", Checks(true, Built), Choice, None))
  const LeavingOfFirst := Whole(CloseCall(0))

  lemma {:induction false} MakingLeads()
    ensures Leads(Beginning, Making, AtMade)
  {
    assert Create(InitialState, 0, "u", Checks(true, Built), Choice, None, 0).0 == AtMade.s;
  }

  lemma {:induction false} FirstAttachLeads()
    ensures Leads(AtMade, Rewinds(0), AtMade)
    ensures Leads(AtMade, Starts(0, true), AtStarted) && Leads(AtStarted, Admits(0), AtAdmitted)
  {
    assert Start(AtMade.s, 0, true).0 == AtStarted.s;
    assert Admit(AtStarted.s, 0, false, 0) == AtAdmitted.s;
  }

  lemma {:induction false} TurnLeads()
    ensures Leads(AtAdmitted, TurnOfFirst, AtRead)
  {
    assert Next(AtAdmitted.s, 0, 1, 0) == AtRead.s;
  }

  lemma {:induction false} LeavingLeads()
    ensures Leads(AtRead, LeavingOfFirst, AtLeft)
  {
    assert Close(AtRead.s, 0, 0) == AtLeft.s;
  }

  lemma {:induction false} StopLeads()
    ensures Leads(AtLeft, Begins(0, Requested), AtStopping)
  {
    assert AtLeft.s.bySource - {K} == map[];
  }

  lemma {:induction false} RewindLeads()
    ensures Leads(AtStopping, Rewinds(0), AtRewound)
  {
    assert RewindRecord(AtStopping.s, 0) == AtRewound.s;
  }

  lemma {:induction false} RewindWaitLeads()
    ensures Leads(AtRewound, Waits(1), AtRewindWaited)
  {
    assert AtRewound.takings[1] == RewindsIt && AtRewound.takings[1 := RewoundIt] == [StopsIt, RewoundIt];
    assert TerminateAny(AtRewound.s.children, Some(0)) == [Child(1, true)];
  }

  lemma {:induction false} StartAgainLeads()
    ensures Leads(AtRewindWaited, Starts(0, true), AtRestarted) && Leads(AtRestarted, Admits(0), AtJoined)
  {
    assert Start(AtRewindWaited.s, 0, true).0 == AtRestarted.s;
    assert Admit(AtRestarted.s, 0, false, 0) == AtJoined.s;
  }

  lemma {:induction false} CloseLeads()
    ensures Leads(AtJoined, Waits(0), AtWaited) && Leads(AtWaited, Closes(0), AtClosed)
  {
    assert TerminateAny(AtJoined.s.children, Some(0)) == AtJoined.s.children;
    assert AtJoined.takings[0] == StopsIt && AtWaited.takings[0] == StopsIt.(stage := Waited);
  }

  lemma {:induction false} SecondChildIsLost()
    ensures AtClosed.s.sessions[0].state == Stopped && Lost(AtClosed, 1)
  {
    assert !Owned(AtClosed.s, 1);
  }

  /** One step more. */
  lemma {:induction false} RunsOn(moments: seq<Moment>, parts: seq<(Part, int)>, p: Part, next: Moment)
    requires IsSplitRun(moments, parts) && Leads(moments[|parts|], p, next)
    ensures IsSplitRun(moments + [next], parts + [(p, 0)]) && (moments + [next])[|parts| + 1] == next
  {
    var more, on := moments + [next], parts + [(p, 0)];
    forall i | 0 <= i < |on|
      ensures Possible(more[i], on[i].0, on[i].1) && more[i + 1] == After(more[i], on[i].0, on[i].1)
    {
      if i < |parts| { assert on[i] == parts[i] && more[i] == moments[i] && more[i + 1] == moments[i + 1]; }
    }
  }

  /**
   A stop that is waiting on its child while a new reader attaches: the rewind revives the record, the
   start gives it a second child, and the end of the stop forgets that one without waiting on it.
   */
  lemma {:induction false} AttachInsideStopOrphans() returns (moments: seq<Moment>, parts: seq<(Part, int)>)
    ensures IsSplitRun(moments, parts) && moments[|parts|] == AtClosed
    ensures AtClosed.s.sessions[0].state == Stopped && Lost(AtClosed, 1)
  {
    SecondChildIsLost();
    moments, parts := UpToTheStop();
    hide Leads, IsSplitRun;
    RewindLeads();
    RewindWaitLeads();
    StartAgainLeads();
    CloseLeads();
    moments, parts := OneOn(moments, parts, Rewinds(0), AtRewound);
    moments, parts := OneOn(moments, parts, Waits(1), AtRewindWaited);
    moments, parts := OneOn(moments, parts, Starts(0, true), AtRestarted);
    moments, parts := OneOn(moments, parts, Admits(0), AtJoined);
    moments, parts := OneOn(moments, parts, Waits(0), AtWaited);
    moments, parts := OneOn(moments, parts, Closes(0), AtClosed);
  }

  lemma {:induction false} OneOn(moments: seq<Moment>, parts: seq<(Part, int)>, p: Part, next: Moment)
    returns (more: seq<Moment>, on: seq<(Part, int)>)
    requires IsSplitRun(moments, parts) && Leads(moments[|parts|], p, next)
    ensures IsSplitRun(more, on) && |on| < |more| && more[|on|] == next
  {
    RunsOn(moments, parts, p, next);
    more, on := moments + [next], parts + [(p, 0)];
  }

  lemma {:induction false} UpToTheTurn() returns (moments: seq<Moment>, parts: seq<(Part, int)>)
    ensures IsSplitRun(moments, parts) && moments[|parts|] == AtRead
  {
    MakingLeads();
    FirstAttachLeads();
    TurnLeads();
    hide Leads;
    moments, parts := [Beginning], [];
    moments, parts := OneOn(moments, parts, Making, AtMade);
    moments, parts := OneOn(moments, parts, Rewinds(0), AtMade);
    moments, parts := OneOn(moments, parts, Starts(0, true), AtStarted);
    moments, parts := OneOn(moments, parts, Admits(0), AtAdmitted);
    moments, parts := OneOn(moments, parts, TurnOfFirst, AtRead);
  }

  lemma {:induction false} UpToTheStop() returns (moments: seq<Moment>, parts: seq<(Part, int)>)
    ensures IsSplitRun(moments, parts) && moments[|parts|] == AtStopping
  {
    LeavingLeads();
    StopLeads();
    hide Leads;
    moments, parts := UpToTheTurn();
    moments, parts := OneOn(moments, parts, LeavingOfFirst, AtLeft);
    moments, parts := OneOn(moments, parts, Begins(0, Requested), AtStopping);
  }

  lemma {:induction false} MakingAgainLeads()
    ensures Leads(AtRewound, MakingAgain, AtTwo)
  {
    assert AtRewound.s.sessions == map[0 := Rewound];
    assert Create(AtRewound.s, 1, "u", Checks(true, Built), Choice, None, 0).0 == AtTwo.s;
  }

  /**
   An attach into a stop brings the session back to life without its key, so that a `create` makes a second
   one beside it, though no start failed and nothing was stopped twice.
   */
  lemma {:induction false} AttachInsideStopSplitsTheKey() returns (moments: seq<Moment>, parts: seq<(Part, int)>)
    ensures IsSplitRun(moments, parts) && moments[|parts|] == AtTwo
    ensures KeyOf(AtTwo.s.sessions[0]) == KeyOf(AtTwo.s.sessions[1])
      && Live(AtTwo.s.sessions[0].state) && Live(AtTwo.s.sessions[1].state)
  {
    moments, parts := UpToTheStop();
    RewindLeads();
    MakingAgainLeads();
    hide Leads, IsSplitRun;
    moments, parts := OneOn(moments, parts, Rewinds(0), AtRewound);
    moments, parts := OneOn(moments, parts, MakingAgain, AtTwo);
  }

  lemma {:induction false} LateAttachLeads()
    ensures Leads(AtRead, Rewinds(0), AtRead)
    ensures Leads(AtLeft, Starts(0, true), AtLeft)
    ensures Leads(AtLeft, Admits(0), AtLate)
  {
    assert Admit(AtLeft.s, 0, false, 0) == AtLate.s;
  }

  /**
   An attach that found another reader on the session and admits its own only after that one has left: the
   new reader is alone, and in mid-stream.
   */
  lemma {:induction false} LateReaderMissesTheStart() returns (moments: seq<Moment>, parts: seq<(Part, int)>)
    ensures IsSplitRun(moments, parts) && moments[|parts|] == AtLate
    ensures AtLate.s.sessions[0].clients == 1 && AtLate.s.readers[1] == Reader(0, false, Unstarted)
      && ChildOf(AtLate.s, 1) == Some(0) && AtLate.s.children[0].pos == 1
  {
    moments, parts := UpToTheTurn();
    LeavingLeads();
    LateAttachLeads();
    hide Leads, IsSplitRun;
    moments, parts := OneOn(moments, parts, Rewinds(0), AtRead);
    moments, parts := OneOn(moments, parts, LeavingOfFirst, AtLeft);
    moments, parts := OneOn(moments, parts, Starts(0, true), AtLeft);
    moments, parts := OneOn(moments, parts, Admits(0), AtLate);
  }

  /** What `create` does for a key that leads to no live session. */
  lemma {:induction false} CreateFills(s: State, id: Id, newId: Id, source: string, ok: Checks, d: Decision,
                                       owner: Option<string>, now: int)
    requires id in s.sessions && newId !in s.sessions && !Live(s.sessions[id].state)
    requires IndexSound(s) && LiveFor(s, KeyOf(s.sessions[id])).None?
    ensures var between := Create(s, newId, source, ok, d, owner, now).0;
      && id in between.sessions && between.sessions[id] == s.sessions[id]
      && (LiveFor(between, KeyOf(s.sessions[id])).Some?
          <==> Grants(ok, d) && KeyOf(s.sessions[id]) == (source, SessionModeFor(ModeWhenChosen(d))))
  {
  }

  /**
   A second stop of a session that is still stopping leaves the index complete exactly if the call in
   between was not one that makes a session in its place: such a one is then live where no `create`
   can find it.
   */
  lemma {:induction false} SecondStopUnindexesIff(s: State, id: Id, newId: Id, source: string, ok: Checks, d: Decision,
                                                  owner: Option<string>, now: int)
    requires Inv(s) && IndexSound(s) && Indexed(s) && newId !in s.issued
    requires id in s.sessions && s.sessions[id].state != Stopped && !Overlooked(s, id)
    ensures var begun := StopBegin(s, id, Requested);
      var between := Create(begun, newId, source, ok, d, owner, now).0;
      && Indexed(begun) && Indexed(between) && id in between.sessions
      && (Indexed(StopBegin(between, id, Requested))
          <==> !(Grants(ok, d) && KeyOf(s.sessions[id]) == (source, SessionModeFor(ModeWhenChosen(d)))))
  {
    var begun := StopBegin(s, id, Requested);
    BeginIndexed(s, id, Requested);
    assert LiveFor(begun, KeyOf(s.sessions[id])).None?;
    CreateIndexed(begun, newId, source, ok, d, owner, now);
    CreateFills(begun, id, newId, source, ok, d, owner, now);
    BeginIndexed(Create(begun, newId, source, ok, d, owner, now).0, id, Requested);
  }

  /**
   Of the sessions `create` returns between the reaper's look and its stops, exactly those are ended
   though somebody has just claimed them that the reaper found when it looked, which is to say that the
   key led to a live session with a verdict.
   */
  lemma {:induction false} ClaimedThenReapedIff(s: State, newId: Id, source: string, ok: Checks, d: Decision,
                                                owner: Option<string>, now: int, later: int, ttl: nat, exited: set<nat>,
                                                doomed: seq<(Id, StopReason)>)
    requires newId !in s.sessions && IsDoomed(s, now, ttl, exited, doomed)
    ensures var found := LiveFor(s, (source, SessionModeFor(ModeWhenChosen(d))));
      var (claimed, made) := Create(s, newId, source, ok, d, owner, now);
      var reaped := StopEach(claimed, doomed, later);
      made.Returned? ==>
        && made.handle in claimed.sessions && Live(claimed.sessions[made.handle].state)
        && claimed.sessions[made.handle].lastSeen == now && (owner.Some? ==> claimed.sessions[made.handle].owner == owner)
        && made.handle in reaped.sessions
        && (reaped.sessions[made.handle].state == Stopped
            <==> found.Some? && Verdict(s.sessions[found.value], now, ttl, exited).Some?)
  {
    var found := LiveFor(s, (source, SessionModeFor(ModeWhenChosen(d))));
    var (claimed, made) := Create(s, newId, source, ok, d, owner, now);
    if made.Returned? {
      var h := made.handle;
      StopEachDomain(claimed, doomed, later);
      if found.Some? && Verdict(s.sessions[h], now, ttl, exited).Some? {
        var i :| 0 <= i < |doomed| && doomed[i].0 == h;
        StopEachStops(claimed, doomed, later, i);
      } else {
        StopEachSpares(claimed, doomed, later, h);
      }
    }
  }
}

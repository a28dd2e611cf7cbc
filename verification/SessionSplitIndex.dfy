/** The index while sections of different calls interleave: complete exactly until one of three displaces an entry. */
module SessionSplitIndex {
  import opened Wrappers
  import opened PlaybackPolicy
  import opened SessionProtocol
  import opened SessionRuns
  import opened SessionIndex
  import opened SessionSections

  /** The key of `id` leads to it. */
  predicate LeadsTo(s: State, id: Id)
    requires id in s.sessions
  {
    KeyOf(s.sessions[id]) in s.bySource && s.bySource[KeyOf(s.sessions[id])] == id
  }

  /**
   The three sections that break the index: beginning to stop a session that is not live, its start failed or a
   stop of it under way, while a newer one has its key; rewinding one that is being stopped; and starting
   one again whose start failed, while its key does not lead to it.
   */
  ghost predicate Disturbs(m: Moment, p: Part) {
    match p
    case Begins(id, _) => Overlooked(m.s, id)
    case Rewinds(id) => Rewindable(m.s, id) && !LeadsTo(m.s, id)
    case Starts(id, spawned) => id in m.s.sessions && Revives(m.s, id, spawned)
    case _ => false
  }

  /** A record with a process is running or being stopped, and one being stopped has a stop under way. */
  ghost predicate Placed(m: Moment) {
    forall id :: id in m.s.sessions ==>
      && (m.s.sessions[id].process.Some? ==> m.s.sessions[id].state in {Running, Stopping})
      && (m.s.sessions[id].state == Stopping ==> UnderWay(m, id))
  }

  /** No entry leads to a session a stop of which is under way. */
  ghost predicate Unled(m: Moment) {
    forall k :: 0 <= k < |m.takings| && IsUnderWay(m.takings[k]) ==>
      && m.takings[k].id in m.s.issued
      && forall key :: key in m.s.bySource ==> m.s.bySource[key] != m.takings[k].id
  }

  // ------------------------------------------------------------- records and stops

  /** From `s` to `t` states change only to ones that need no stop, and processes only where they may be. */
  ghost predicate Settles(s: State, t: State) {
    forall id :: id in t.sessions ==>
      || (id in s.sessions && t.sessions[id].state == s.sessions[id].state && t.sessions[id].process == s.sessions[id].process)
      || (t.sessions[id].state != Stopping && (t.sessions[id].process.Some? ==> t.sessions[id].state == Running))
  }

  lemma {:induction false} SettlesPlaced(m: Moment, t: Moment)
    requires Placed(m) && Settles(m.s, t.s) && t.takings == m.takings
    ensures Placed(t)
  {
    forall id | id in t.s.sessions && t.s.sessions[id].state == Stopping ensures UnderWay(t, id) { assert UnderWay(m, id); }
  }

  lemma {:induction false} ReaderSettles(s: State, r: nat, n: nat, now: int)
    requires r < |s.readers|
    ensures Settles(s, Next(s, r, n, now)) && Next(s, r, n, now).issued == s.issued
    ensures Settles(s, Close(s, r, now)) && Close(s, r, now).issued == s.issued
  {
    match ChildOf(s, r)
    case None =>
    case Some(c) => if c < |s.children| { assert Settles(s, Take(s, r, c, n, now)); }
  }

  lemma {:induction false} WholeSettles(m: Moment, call: Event, now: int)
    requires Sane(m) && Possible(m, Whole(call), now)
    ensures Settles(m.s, Step(m.s, call, now)) && m.s.issued <= Step(m.s, call, now).issued
  {
    match call
    case CreateCall(id, source, ok, d, owner) =>
    case ReadDirectCall(id) =>
    case NextCall(r, n) => ReaderSettles(m.s, r, n, now);
    case CloseCall(r) => ReaderSettles(m.s, r, 0, now);
    case ReleaseCall(id) =>
    case ForgetCall(age) =>
  }

  lemma {:induction false} PartPlaced(m: Moment, p: Part, now: int)
    requires Sane(m) && Placed(m) && Possible(m, p, now)
    ensures Placed(After(m, p, now))
  {
    var t := After(m, p, now);
    match p
    case Whole(call) => WholeSettles(m, call, now); SettlesPlaced(m, t);
    case Starts(_, _) => SettlesPlaced(m, t);
    case Admits(_) => SettlesPlaced(m, t);
    case Begins(id, _) => AddedPlaced(m, t, id);
    case Rewinds(id) => if Rewindable(m.s, id) { AddedPlaced(m, t, id); }
    case Waits(k) => StagePlaced(m, t, k);
    case Closes(k) => StagePlaced(m, t, k);
  }

  lemma {:induction false} AddedPlaced(m: Moment, t: Moment, id: Id)
    requires Placed(m) && |t.takings| == |m.takings| + 1 && forall k :: 0 <= k < |m.takings| ==> t.takings[k] == m.takings[k]
    requires t.s.sessions.Keys == m.s.sessions.Keys && id in m.s.sessions
    requires forall o :: o in m.s.sessions && o != id ==> t.s.sessions[o] == m.s.sessions[o]
    requires (t.s.sessions[id].state == Stopping && IsUnderWay(t.takings[|m.takings|]) && t.takings[|m.takings|].id == id)
      || (t.s.sessions[id].state == Created && t.s.sessions[id].process == None)
    ensures Placed(t)
  {
    forall o | o in t.s.sessions && t.s.sessions[o].state == Stopping ensures UnderWay(t, o) {
      if o == id { assert IsUnderWay(t.takings[|m.takings|]); }
      else {
        assert UnderWay(m, o);
        var k :| 0 <= k < |m.takings| && IsUnderWay(m.takings[k]) && m.takings[k].id == o;
        assert IsUnderWay(t.takings[k]);
      }
    }
  }

  /** The stop at `k` goes on: it is over only once its record is stopped or forgotten. */
  lemma {:induction false} StagePlaced(m: Moment, t: Moment, k: nat)
    requires Placed(m) && k < |m.takings| && |t.takings| == |m.takings| && t.takings == m.takings[k := t.takings[k]]
    requires t.takings[k].id == m.takings[k].id
    requires t.takings[k].stops == m.takings[k].stops
    requires Settles(m.s, t.s)
    requires t.takings[k].stage == Finished && m.takings[k].id in t.s.sessions && m.takings[k].stops ==>
      t.s.sessions[m.takings[k].id].state != Stopping
    ensures Placed(t)
  {
    forall o | o in t.s.sessions && t.s.sessions[o].state == Stopping ensures UnderWay(t, o) {
      assert UnderWay(m, o);
      var j :| 0 <= j < |m.takings| && IsUnderWay(m.takings[j]) && m.takings[j].id == o;
      assert IsUnderWay(t.takings[j]) && t.takings[j].id == o;
    }
  }

  // ------------------------------------------------------------- entries

  /** No entry leads anywhere new but to a session just made. */
  ghost predicate LeadsNoFurther(s: State, t: State) {
    && s.issued <= t.issued
    && forall key :: key in t.bySource ==>
         (key in s.bySource && t.bySource[key] == s.bySource[key]) || t.bySource[key] !in s.issued
  }

  lemma {:induction false} StaysUnled(m: Moment, t: Moment)
    requires Unled(m) && LeadsNoFurther(m.s, t.s) && |t.takings| == |m.takings|
    requires forall k :: 0 <= k < |m.takings| ==>
      t.takings[k].id == m.takings[k].id && (IsUnderWay(t.takings[k]) ==> IsUnderWay(m.takings[k]))
    ensures Unled(t)
  {
  }

  lemma {:induction false} WholeUnled(m: Moment, call: Event, now: int)
    requires Sane(m) && Possible(m, Whole(call), now)
    ensures LeadsNoFurther(m.s, Step(m.s, call, now))
  {
    WholeSettles(m, call, now);
    match call
    case CreateCall(id, source, ok, d, owner) =>
    case ReadDirectCall(id) =>
    case NextCall(r, n) => NextAlike(m.s, r, n, now);
    case CloseCall(r) => CloseAlike(m.s, r, now);
    case ReleaseCall(id) =>
    case ForgetCall(age) =>
  }

  lemma {:induction false} PartUnled(m: Moment, p: Part, now: int)
    requires Sane(m) && Unled(m) && IndexSound(m.s) && Possible(m, p, now)
    ensures Unled(After(m, p, now))
  {
    var t := After(m, p, now);
    match p
    case Whole(call) => WholeUnled(m, call, now); StaysUnled(m, t);
    case Begins(id, _) => assert forall k :: 0 <= k < |m.takings| ==> t.takings[k] == m.takings[k];
    case Rewinds(id) => assert forall k :: 0 <= k < |m.takings| ==> t.takings[k] == m.takings[k];
    case _ => StaysUnled(m, t);
  }

  // ------------------------------------------------------------- the index

  lemma {:induction false} WholeIndexed(m: Moment, call: Event, now: int)
    requires Sane(m) && IndexSound(m.s) && Indexed(m.s) && Possible(m, Whole(call), now)
    ensures IndexSound(Step(m.s, call, now)) && Indexed(Step(m.s, call, now))
  {
    var s := m.s;
    match call
    case CreateCall(id, source, ok, d, owner) => CreateIndexed(s, id, source, ok, d, owner, now);
    case ReadDirectCall(id) =>
      if id in s.sessions { CountAlike(s, id, now); AlikeIndexed(s, ReadDirect(s, id, now).0); }
    case NextCall(r, n) => ReadersIndexed(s, r, n, now);
    case CloseCall(r) => ReadersIndexed(s, r, 0, now);
    case ReleaseCall(id) =>
      if id in s.sessions { CountAlike(s, id, now); AlikeIndexed(s, Release(s, id, now).0); }
    case ForgetCall(age) => ForgetIndexed(s, now, age);
  }

  /** The last section of a stop ends a session no entry leads to, which was not live then. */
  lemma {:induction false} ClosesIndexed(m: Moment, k: nat, now: int)
    requires Unled(m) && IndexSound(m.s) && Indexed(m.s) && Possible(m, Closes(k), now)
    ensures IndexSound(After(m, Closes(k), now).s) && Indexed(After(m, Closes(k), now).s)
  {
    var t, id := After(m, Closes(k), now).s, m.takings[k].id;
    assert IsUnderWay(m.takings[k]) && t.bySource == m.s.bySource;
    assert forall o :: o in m.s.sessions && o != id ==> t.sessions[o] == m.s.sessions[o];
  }

  lemma {:induction false} RewindsIndexed(s: State, id: Id)
    requires IndexSound(s) && Indexed(s) && Rewindable(s, id) && s.sessions[id].state in {Running, Stopping}
    ensures IndexSound(RewindRecord(s, id))
    ensures Indexed(RewindRecord(s, id)) <==> LeadsTo(s, id)
  {
    var t := RewindRecord(s, id);
    assert t.bySource == s.bySource && KeyOf(t.sessions[id]) == KeyOf(s.sessions[id]);
    assert forall o :: o in s.sessions && o != id ==> t.sessions[o] == s.sessions[o];
    assert Live(t.sessions[id].state);
  }

  /** A section, or a call in one piece, keeps the index complete exactly when it is not one of the three. */
  lemma {:induction false} PartIndexedIff(m: Moment, p: Part, now: int)
    requires Sane(m) && Placed(m) && Unled(m) && IndexSound(m.s) && Indexed(m.s) && Possible(m, p, now)
    ensures IndexSound(After(m, p, now).s)
    ensures Indexed(After(m, p, now).s) <==> !Disturbs(m, p)
  {
    var t := After(m, p, now);
    match p
    case Whole(call) => WholeIndexed(m, call, now);
    case Begins(id, reason) => BeginIndexed(m.s, id, reason);
    case Closes(k) => ClosesIndexed(m, k, now);
    case Rewinds(id) => if Rewindable(m.s, id) { RewindsIndexed(m.s, id); }
    case Starts(id, spawned) => StartIndexed(m.s, id, spawned);
    case Admits(id) => if id in m.s.sessions { AdmitAlike(m.s, id, now); AlikeIndexed(m.s, t.s); }
    case Waits(k) => AlikeIndexed(m.s, t.s);
  }

  /** No section up to `i` displaced an entry. */
  ghost predicate Undisturbed(moments: seq<Moment>, parts: seq<(Part, int)>, i: nat)
    requires i <= |parts| && i < |moments|
  {
    forall k :: 0 <= k < i ==> !Disturbs(moments[k], parts[k].0)
  }

  lemma {:induction false} SplitRunPlaced(moments: seq<Moment>, parts: seq<(Part, int)>, i: nat)
    requires IsSplitRun(moments, parts) && i < |moments|
    ensures Sane(moments[i]) && Placed(moments[i])
  {
    SplitRunSane(moments, parts, i);
    if i > 0 {
      SplitRunPlaced(moments, parts, i - 1);
      PartPlaced(moments[i - 1], parts[i - 1].0, parts[i - 1].1);
    }
  }

  lemma {:induction false} SplitRunIndexed(moments: seq<Moment>, parts: seq<(Part, int)>, i: nat)
    requires IsSplitRun(moments, parts) && i < |moments| && Undisturbed(moments, parts, i)
    ensures Unled(moments[i]) && IndexSound(moments[i].s) && Indexed(moments[i].s)
  {
    if i > 0 {
      var m, p, now := moments[i - 1], parts[i - 1].0, parts[i - 1].1;
      SplitRunIndexed(moments, parts, i - 1);
      SplitRunPlaced(moments, parts, i - 1);
      PartUnled(m, p, now);
      PartIndexedIff(m, p, now);
    }
  }

  /**
   Over every run with the sections apart the index has been complete up to a moment exactly when none of the
   three came before.
   */
  lemma {:induction false} SplitRunIndexedIff(moments: seq<Moment>, parts: seq<(Part, int)>, i: nat)
    requires IsSplitRun(moments, parts) && i < |moments|
    ensures (forall j :: 0 <= j <= i ==> Indexed(moments[j].s)) <==> Undisturbed(moments, parts, i)
  {
    if Undisturbed(moments, parts, i) {
      forall j | 0 <= j <= i ensures Indexed(moments[j].s) { SplitRunIndexed(moments, parts, j); }
    } else if forall j :: 0 <= j <= i ==> Indexed(moments[j].s) {
      var k := FirstDisturbed(moments, parts, i);
      SplitRunIndexed(moments, parts, k);
      SplitRunPlaced(moments, parts, k);
      PartIndexedIff(moments[k], parts[k].0, parts[k].1);
      assert !Indexed(moments[k + 1].s);
    }
  }

  lemma {:induction false} FirstDisturbed(moments: seq<Moment>, parts: seq<(Part, int)>, i: nat) returns (k: nat)
    requires i <= |parts| && i < |moments| && !Undisturbed(moments, parts, i)
    ensures k < i && Disturbs(moments[k], parts[k].0) && Undisturbed(moments, parts, k)
  {
    if Undisturbed(moments, parts, i - 1) { k := i - 1; } else { k := FirstDisturbed(moments, parts, i - 1); }
  }

  /** The call keeps off sessions a stop of which is under way, and its start succeeds. */
  ghost predicate Orderly(m: Moment, p: Part) {
    match p
    case Begins(id, _) => !UnderWay(m, id)
    case Rewinds(id) => !UnderWay(m, id)
    case Starts(_, spawned) => spawned
    case _ => true
  }

  lemma {:induction false} WholeUnfailed(m: Moment, call: Event, now: int)
    requires Sane(m) && NoneFailed(m.s) && Possible(m, Whole(call), now)
    ensures NoneFailed(Step(m.s, call, now))
  {
    var s := m.s;
    match call
    case CreateCall(id, source, ok, d, owner) =>
    case ReadDirectCall(id) =>
    case NextCall(r, n) => NextAlike(s, r, n, now); AlikeIndexed(s, Next(s, r, n, now));
    case CloseCall(r) => CloseAlike(s, r, now); AlikeIndexed(s, Close(s, r, now));
    case ReleaseCall(id) =>
    case ForgetCall(age) =>
  }

  lemma {:induction false} PartUnfailed(m: Moment, p: Part, now: int)
    requires Sane(m) && NoneFailed(m.s) && Possible(m, p, now) && Orderly(m, p)
    ensures NoneFailed(After(m, p, now).s)
  {
    if p.Whole? { WholeUnfailed(m, p.call, now); }
  }

  /** So nothing is displaced as long as every start succeeds and no call touches a session that is being stopped. */
  lemma {:induction false} OrderlyDisturbsNothing(moments: seq<Moment>, parts: seq<(Part, int)>, i: nat)
    requires IsSplitRun(moments, parts) && i < |moments|
    requires forall k :: 0 <= k < i ==> Orderly(moments[k], parts[k].0)
    ensures Undisturbed(moments, parts, i) && NoneFailed(moments[i].s)
  {
    if i > 0 {
      var m, p := moments[i - 1], parts[i - 1].0;
      OrderlyDisturbsNothing(moments, parts, i - 1);
      SplitRunIndexed(moments, parts, i - 1);
      SplitRunPlaced(moments, parts, i - 1);
      PartUnfailed(m, p, parts[i - 1].1);
      assert !Disturbs(m, p);
    }
  }

  /** As long as nothing was displaced, live sessions of one key are one, and `create` returns it. */
  lemma {:induction false} OneLiveSessionApart(moments: seq<Moment>, parts: seq<(Part, int)>, i: nat, a: Id, b: Id,
                                               newId: Id, ok: Checks, d: Decision, owner: Option<string>, now: int)
    requires IsSplitRun(moments, parts) && i < |moments| && Undisturbed(moments, parts, i)
    requires a in moments[i].s.sessions && Live(moments[i].s.sessions[a].state)
    ensures (b in moments[i].s.sessions && Live(moments[i].s.sessions[b].state)
             && KeyOf(moments[i].s.sessions[a]) == KeyOf(moments[i].s.sessions[b])) ==> a == b
    ensures var rec := moments[i].s.sessions[a];
      ok.source && d.mode != Unsupported && SessionModeFor(ModeWhenChosen(d)) == rec.mode ==>
        Create(moments[i].s, newId, rec.source, ok, d, owner, now).1 == Returned(a)
  {
    SplitRunIndexed(moments, parts, i);
  }
}

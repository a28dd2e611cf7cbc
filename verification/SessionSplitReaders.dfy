/** What readers are promised while sections of different calls interleave: their count, their child and its bytes. */
module SessionSplitReaders {
  import opened Wrappers
  import opened SessionProtocol
  import opened SessionRuns
  import opened SessionGuarantees
  import opened SessionSections

  // ------------------------------------------------------------- ended stays ended

  lemma {:induction false} PartEnded(m: Moment, p: Part, now: int, id: Id)
    requires Sane(m) && Possible(m, p, now) && Ended(m.s, id)
    ensures Ended(After(m, p, now).s, id)
  {
    match p
    case Whole(call) => WholeEnded(m, call, now, id);
    case _ =>
  }

  lemma {:induction false} WholeEnded(m: Moment, call: Event, now: int, id: Id)
    requires Sane(m) && Possible(m, Whole(call), now) && Ended(m.s, id)
    ensures Ended(Step(m.s, call, now), id)
  {
    match call
    case CreateCall(_, source, ok, d, owner) =>
    case ReadDirectCall(_) =>
    case NextCall(r, n) =>
    case CloseCall(r) =>
    case ReleaseCall(_) =>
    case ForgetCall(age) =>
  }

  /** However the sections interleave a stopped session stays so, without a process, or is forgotten for good. */
  lemma {:induction false} StoppedIsFinalApart(moments: seq<Moment>, parts: seq<(Part, int)>, i: nat, j: nat, id: Id)
    requires IsSplitRun(moments, parts) && i <= j < |moments|
    requires id in moments[i].s.sessions && moments[i].s.sessions[id].state == Stopped
    ensures Ended(moments[j].s, id)
    decreases j
  {
    SplitRunSane(moments, parts, i);
    if i < j {
      StoppedIsFinalApart(moments, parts, i, j - 1, id);
      SplitRunSane(moments, parts, j - 1);
      PartEnded(moments[j - 1], parts[j - 1].0, parts[j - 1].1, id);
    }
  }

  // ------------------------------------------------------------- counting

  /** A reader is of an issued id, and what it has bound is a spawned child, of its own session if of any. */
  ghost predicate Binds(s: State, reader: Reader) {
    && reader.session in s.issued
    && (reader.phase.Reading? ==>
          && reader.phase.child < |s.children|
          && forall id :: ProcessOf(s, id) == Some(reader.phase.child) ==> id == reader.session)
  }

  ghost predicate Known(s: State) { forall r :: 0 <= r < |s.readers| ==> Binds(s, s.readers[r]) }

  lemma {:induction false} NewUncounted(s: State, id: Id)
    requires Known(s) && id !in s.issued
    ensures Uncollected(s.readers, id) == 0
  {
    forall r | 0 <= r < |s.readers| ensures s.readers[r].session != id { assert Binds(s, s.readers[r]); }
    NoneUncollected(s.readers, id);
  }

  lemma {:induction false} PhaseCounted(s: State, r: nat, phase: Phase)
    requires Counted(s) && r < |s.readers| && s.readers[r].phase != Closed && phase != Closed
    ensures Counted(WithPhase(s, r, phase))
  {
    var t := WithPhase(s, r, phase);
    forall o | o in t.sessions && t.sessions[o].state != Stopped ensures t.sessions[o].clients == Uncollected(t.readers, o) {
      UncollectedUpdate(s.readers, r, s.readers[r].(phase := phase), o);
    }
  }

  lemma {:induction false} ReaderCounted(s: State, r: nat, n: nat, now: int)
    requires Counted(s) && r < |s.readers|
    ensures Counted(Next(s, r, n, now)) && Counted(Close(s, r, now))
  {
    if s.readers[r].phase != Closed && s.readers[r].phase != Abandoned {
      LetGoCounted(s, r, now);
      PhaseCounted(s, r, Abandoned);
      match ChildOf(s, r)
      case None =>
      case Some(c) => PhaseCounted(s, r, Reading(c));
    }
  }

  lemma {:induction false} WholeCounted(m: Moment, call: Event, now: int)
    requires Sane(m) && Known(m.s) && Counted(m.s) && Possible(m, Whole(call), now)
    ensures Counted(Step(m.s, call, now))
  {
    match call
    case CreateCall(id, source, ok, d, owner) => NewUncounted(m.s, id);
    case ReadDirectCall(id) => if id in m.s.sessions { AdmitCounted(m.s, id, true, now); }
    case NextCall(r, n) => ReaderCounted(m.s, r, n, now);
    case CloseCall(r) => ReaderCounted(m.s, r, 0, now);
    case ReleaseCall(id) =>
    case ForgetCall(age) =>
  }

  lemma {:induction false} AdmitRecordCounted(s: State, id: Id, now: int)
    requires Counted(s)
    ensures Counted(AdmitRecord(s, id, now))
  {
    if id in s.sessions { AdmitCounted(s, id, false, now); }
    else {
      var t := AdmitRecord(s, id, now);
      forall o | o in t.sessions ensures Uncollected(t.readers, o) == Uncollected(s.readers, o) {
        UncollectedAppend(s.readers, Reader(id, false, Unstarted), o);
      }
    }
  }

  lemma {:induction false} PartCounted(m: Moment, p: Part, now: int)
    requires Sane(m) && Known(m.s) && Counted(m.s) && Possible(m, p, now)
    ensures Counted(After(m, p, now).s)
  {
    match p
    case Whole(call) => WholeCounted(m, call, now);
    case Admits(id) => AdmitRecordCounted(m.s, id, now);
    case _ =>
  }

  // ------------------------------------------------------------- processes

  /** A process of a session is one it had, or a child spawned just now. */
  ghost predicate FreshOrKept(s: State, t: State) {
    && |s.children| <= |t.children| && s.issued <= t.issued
    && forall id :: ProcessOf(t, id).Some? ==> ProcessOf(t, id) == ProcessOf(s, id) || ProcessOf(t, id).value >= |s.children|
  }

  lemma {:induction false} WholeFreshOrKept(m: Moment, call: Event, now: int)
    requires Sane(m) && Possible(m, Whole(call), now)
    ensures FreshOrKept(m.s, Step(m.s, call, now))
  {
    OthersSame(m, call, now);
    match call
    case NextCall(r, n) =>
    case CloseCall(r) =>
    case _ =>
  }

  lemma {:induction false} PartFreshOrKept(m: Moment, p: Part, now: int)
    requires Sane(m) && Possible(m, p, now)
    ensures FreshOrKept(m.s, After(m, p, now).s)
  {
    if p.Whole? { WholeFreshOrKept(m, p.call, now); }
  }

  lemma {:induction false} KeptBinds(s: State, t: State, reader: Reader)
    requires FreshOrKept(s, t) && Binds(s, reader)
    ensures Binds(t, reader)
  {
  }

  /** Each reader after the step is one from before, or binds as a reader may. */
  lemma {:induction false} KeptKnown(s: State, t: State)
    requires FreshOrKept(s, t) && Known(s)
    requires forall r :: 0 <= r < |t.readers| ==> (r < |s.readers| && t.readers[r] == s.readers[r]) || Binds(t, t.readers[r])
    ensures Known(t)
  {
    forall r | 0 <= r < |t.readers| ensures Binds(t, t.readers[r]) {
      if r < |s.readers| && t.readers[r] == s.readers[r] { KeptBinds(s, t, s.readers[r]); }
    }
  }

  /** What a reader's next turn binds is a child of its own session. */
  lemma {:induction false} ChildBinds(m: Moment, r: nat)
    requires Sane(m) && Known(m.s) && r < |m.s.readers| && ChildOf(m.s, r).Some?
    ensures Binds(m.s, m.s.readers[r].(phase := Reading(ChildOf(m.s, r).value)))
  {
    var reader := m.s.readers[r];
    assert Binds(m.s, reader);
    if reader.phase.Unstarted? { assert ProcessOf(m.s, reader.session) == ChildOf(m.s, r); }
  }

  lemma {:induction false} TurnKnown(m: Moment, r: nat, n: nat, now: int)
    requires Sane(m) && Known(m.s) && r < |m.s.readers|
    ensures Known(Next(m.s, r, n, now)) && Known(Close(m.s, r, now))
  {
    var s := m.s;
    var reader := s.readers[r];
    assert Binds(s, reader);
    ReaderSame(s, r, n, now);
    var t, u := Next(s, r, n, now), Close(s, r, now);
    assert t.issued == s.issued && u.issued == s.issued;
    if ChildOf(s, r).Some? { ChildBinds(m, r); KeptBinds(s, t, reader.(phase := Reading(ChildOf(s, r).value))); }
    TurnReaders(s, r, n, now);
    KeptKnown(s, t);
    KeptKnown(s, u);
  }

  lemma {:induction false} TurnReaders(s: State, r: nat, n: nat, now: int)
    requires r < |s.readers|
    ensures var ended := [s.readers, s.readers[r := s.readers[r].(phase := Closed)],
                          s.readers[r := s.readers[r].(phase := Abandoned)]];
      && Close(s, r, now).readers in ended
      && (Next(s, r, n, now).readers in ended
          || (ChildOf(s, r).Some?
              && Next(s, r, n, now).readers == s.readers[r := s.readers[r].(phase := Reading(ChildOf(s, r).value))]))
  {
  }

  lemma {:induction false} PartKnown(m: Moment, p: Part, now: int)
    requires Sane(m) && Known(m.s) && Possible(m, p, now)
    ensures Known(After(m, p, now).s)
  {
    PartFreshOrKept(m, p, now);
    if p.Whole? && p.call.NextCall? { TurnKnown(m, p.call.reader, p.call.bytes, now); }
    else if p.Whole? && p.call.CloseCall? { TurnKnown(m, p.call.reader, 0, now); }
    else { KeptKnown(m.s, After(m, p, now).s); }
  }

  lemma {:induction false} SplitRunKnown(moments: seq<Moment>, parts: seq<(Part, int)>, i: nat)
    requires IsSplitRun(moments, parts) && i < |moments|
    ensures Sane(moments[i]) && Known(moments[i].s) && Counted(moments[i].s)
  {
    SplitRunSane(moments, parts, i);
    if i > 0 {
      SplitRunKnown(moments, parts, i - 1);
      PartKnown(moments[i - 1], parts[i - 1].0, parts[i - 1].1);
      PartCounted(moments[i - 1], parts[i - 1].0, parts[i - 1].1);
    }
  }

  /** However the sections interleave a session that has not ended counts the readers that have not let it go. */
  lemma {:induction false} ClientsAreReadersApart(moments: seq<Moment>, parts: seq<(Part, int)>, i: nat, id: Id)
    requires IsSplitRun(moments, parts) && i < |moments|
    requires id in moments[i].s.sessions && moments[i].s.sessions[id].state != Stopped
    ensures moments[i].s.sessions[id].clients == Uncollected(moments[i].s.readers, id)
  {
    SplitRunKnown(moments, parts, i);
  }
}

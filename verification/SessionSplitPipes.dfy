/** Which child a reader finds while sections of different calls interleave, and where in its stream. */
module SessionSplitPipes {
  import opened Wrappers
  import opened SessionProtocol
  import opened SessionRuns
  import opened SessionSections
  import opened SessionSplitReaders

  // ------------------------------------------------------------- keeping a child

  /** The step takes its child from session `id`: an attach rewinds it, or the end of a stop clears it. */
  ghost predicate Drops(m: Moment, p: Part, id: Id) {
    || (p.Rewinds? && p.id == id && Rewindable(m.s, id))
    || (p.Closes? && p.taking < |m.takings| && m.takings[p.taking].id == id)
  }

  lemma {:induction false} PartProcess(m: Moment, p: Part, now: int, id: Id, c: nat)
    requires Sane(m) && Possible(m, p, now) && c < |m.s.children|
    ensures ProcessOf(After(m, p, now).s, id) == Some(c) <==> ProcessOf(m.s, id) == Some(c) && !Drops(m, p, id)
  {
    PartFreshOrKept(m, p, now);
    if p.Whole? { OthersSame(m, p.call, now); }
  }

  /** A process a session has later, of a child that is there already, is the one it has now. */
  lemma {:induction false} OldProcess(moments: seq<Moment>, parts: seq<(Part, int)>, i: nat, j: nat, id: Id, c: nat)
    requires IsSplitRun(moments, parts) && i <= j < |moments|
    requires ProcessOf(moments[j].s, id) == Some(c) && c < |moments[i].s.children|
    ensures ProcessOf(moments[i].s, id) == Some(c) && |moments[i].s.children| <= |moments[j].s.children|
    decreases j
  {
    hide IsSplitRun;
    RunLength(moments, parts);
    ChildrenStay(moments, parts, i, j);
    if i < j {
      ChildrenStay(moments, parts, i, j - 1);
      StepFreshOrKept(moments, parts, j - 1);
      OldProcess(moments, parts, i, j - 1, id, c);
    }
  }

  lemma {:induction false} RunLength(moments: seq<Moment>, parts: seq<(Part, int)>)
    requires IsSplitRun(moments, parts)
    ensures |moments| == |parts| + 1
  {
  }

  lemma {:induction false} StepFreshOrKept(moments: seq<Moment>, parts: seq<(Part, int)>, i: nat)
    requires IsSplitRun(moments, parts) && i < |parts|
    ensures FreshOrKept(moments[i].s, moments[i + 1].s)
  {
    SplitStep(moments, parts, i);
    PartFreshOrKept(moments[i], parts[i].0, parts[i].1);
  }

  lemma {:induction false} ChildrenStay(moments: seq<Moment>, parts: seq<(Part, int)>, i: nat, j: nat)
    requires IsSplitRun(moments, parts) && i <= j < |moments|
    ensures |moments[i].s.children| <= |moments[j].s.children|
    decreases j
  {
    hide IsSplitRun;
    RunLength(moments, parts);
    if i < j {
      ChildrenStay(moments, parts, i, j - 1);
      StepFreshOrKept(moments, parts, j - 1);
    }
  }

  /** From one moment of a run to another nothing took the child of `id`. */
  ghost predicate Undropped(moments: seq<Moment>, parts: seq<(Part, int)>, i: nat, j: nat, id: Id)
    requires j <= |parts| && j < |moments|
  {
    forall k :: i <= k < j ==> !Drops(moments[k], parts[k].0, id)
  }

  /** A session has its child at a later moment exactly if nothing took it in between: no child ever comes back. */
  lemma {:induction false} KeepsItsChildIff(moments: seq<Moment>, parts: seq<(Part, int)>, i: nat, j: nat, id: Id, c: nat)
    requires IsSplitRun(moments, parts) && i <= j < |moments| && ProcessOf(moments[i].s, id) == Some(c)
    ensures ProcessOf(moments[j].s, id) == Some(c) <==> Undropped(moments, parts, i, j, id)
    decreases j
  {
    hide IsSplitRun, Possible, After, Drops, Sane;
    RunLength(moments, parts);
    if i < j {
      KeepsItsChildIff(moments, parts, i, j - 1, id, c);
      ProcessIsThere(moments, parts, i, id, c);
      ChildrenStay(moments, parts, i, j - 1);
      SplitStep(moments, parts, j - 1);
      PartProcess(moments[j - 1], parts[j - 1].0, parts[j - 1].1, id, c);
    }
  }

  lemma {:induction false} SplitStep(moments: seq<Moment>, parts: seq<(Part, int)>, i: nat)
    requires IsSplitRun(moments, parts) && i < |parts|
    ensures |moments| == |parts| + 1 && Sane(moments[i]) && Possible(moments[i], parts[i].0, parts[i].1)
    ensures moments[i + 1] == After(moments[i], parts[i].0, parts[i].1)
  {
    SplitRunSane(moments, parts, i);
  }

  lemma {:induction false} ProcessIsThere(moments: seq<Moment>, parts: seq<(Part, int)>, i: nat, id: Id, c: nat)
    requires IsSplitRun(moments, parts) && i < |moments| && ProcessOf(moments[i].s, id) == Some(c)
    ensures c < |moments[i].s.children|
  {
    SplitRunSane(moments, parts, i);
  }

  /**
   The reader an attach admits finds the child the attach started, or found running, exactly if no other
   attach rewound the session and no stop of it ended between the two sections.
   */
  lemma {:induction false} AdmittedFindsItsChildIff(moments: seq<Moment>, parts: seq<(Part, int)>, i: nat, j: nat, id: Id,
                                                    spawned: bool)
    requires IsSplitRun(moments, parts) && i < j < |parts|
    requires parts[i].0 == Starts(id, spawned) && parts[j].0 == Admits(id)
    requires Start(moments[i].s, id, spawned).1.None?
    ensures var r, found := |moments[j].s.readers|, ProcessOf(moments[i + 1].s, id);
      && found.Some? && r < |moments[j + 1].s.readers| && moments[j + 1].s.readers[r] == Reader(id, false, Unstarted)
      && (ChildOf(moments[j + 1].s, r) == found <==> Undropped(moments, parts, i + 1, j, id))
  {
    var c := ProcessOf(moments[i + 1].s, id).value;
    KeepsItsChildIff(moments, parts, i + 1, j, id, c);
    assert ProcessOf(moments[j + 1].s, id) == ProcessOf(moments[j].s, id);
  }

  // ------------------------------------------------------------- bytes

  /** The bytes a step takes off child `c`: those of a turn of a reader that has it, unless its pipe is closed. */
  function Taken(m: Moment, p: Part, c: nat): nat {
    if && p.Whole? && p.call.NextCall? && p.call.reader < |m.s.readers| && !m.s.readers[p.call.reader].direct
       && ChildOf(m.s, p.call.reader) == Some(c) && c < |m.s.children| && !m.s.children[c].waited
    then p.call.bytes else 0
  }

  lemma {:induction false} TurnPositions(s: State, r: nat, n: nat, now: int, c: nat)
    requires r < |s.readers| && c < |s.children|
    ensures |Next(s, r, n, now).children| == |s.children|
    ensures Next(s, r, n, now).children[c].pos == s.children[c].pos + Taken(Moment(s, []), Whole(NextCall(r, n)), c)
  {
  }

  lemma {:induction false} PartPositions(m: Moment, p: Part, now: int, c: nat)
    requires Possible(m, p, now) && c < |After(m, p, now).s.children|
    ensures After(m, p, now).s.children[c].pos == (if c < |m.s.children| then m.s.children[c].pos else 0) + Taken(m, p, c)
  {
    if p.Whole? && p.call.NextCall? {
      hide Next;
      var r, n := p.call.reader, p.call.bytes;
      TurnCount(m.s, r, n, now);
      TurnPositions(m.s, r, n, now, c);
      assert Taken(m, p, c) == Taken(Moment(m.s, []), Whole(NextCall(r, n)), c);
    }
  }

  lemma {:induction false} TurnCount(s: State, r: nat, n: nat, now: int)
    requires r < |s.readers|
    ensures |Next(s, r, n, now).children| == |s.children|
  {
  }

  /** All that is taken off child `c` from one moment of a run to another. */
  function TakenBetween(moments: seq<Moment>, parts: seq<(Part, int)>, i: nat, j: nat, c: nat): nat
    requires j <= |parts| && j < |moments|
  {
    if j <= i then 0 else TakenBetween(moments, parts, i, j - 1, c) + Taken(moments[j - 1], parts[j - 1].0, c)
  }

  /** No byte is lost: a pipe is where its readers' turns have brought it. */
  lemma {:induction false} BytesAddUp(moments: seq<Moment>, parts: seq<(Part, int)>, i: nat, j: nat, c: nat)
    requires IsSplitRun(moments, parts) && i <= j < |moments| && c < |moments[j].s.children|
    ensures moments[j].s.children[c].pos
         == (if c < |moments[i].s.children| then moments[i].s.children[c].pos else 0) + TakenBetween(moments, parts, i, j, c)
    decreases j
  {
    if i < j {
      PartPositions(moments[j - 1], parts[j - 1].0, parts[j - 1].1, c);
      if c < |moments[j - 1].s.children| { BytesAddUp(moments, parts, i, j - 1, c); }
      else { NoneTaken(moments, parts, i, j - 1, c); ChildrenStay(moments, parts, i, j - 1); }
    }
  }

  lemma {:induction false} NoneTaken(moments: seq<Moment>, parts: seq<(Part, int)>, i: nat, j: nat, c: nat)
    requires IsSplitRun(moments, parts) && j < |moments| && c >= |moments[j].s.children|
    ensures TakenBetween(moments, parts, i, j, c) == 0
    decreases j
  {
    if i < j {
      ChildrenStay(moments, parts, j - 1, j);
      NoneTaken(moments, parts, i, j - 1, c);
    }
  }

  /** The child a session has has been read only if the session says so. */
  ghost predicate SaysRead(s: State) {
    forall id :: ProcessOf(s, id).Some? && ProcessOf(s, id).value < |s.children| && s.children[ProcessOf(s, id).value].pos > 0
      ==> s.sessions[id].served
  }

  /** A session's child is read by its own readers alone. */
  lemma {:induction false} TakersAreItsOwn(m: Moment, p: Part, id: Id, c: nat)
    requires Sane(m) && Known(m.s) && ProcessOf(m.s, id) == Some(c) && Taken(m, p, c) > 0
    ensures m.s.readers[p.call.reader].session == id
  {
    ChildBinds(m, p.call.reader);
  }

  lemma {:induction false} ServedStays(m: Moment, p: Part, now: int, id: Id)
    requires Possible(m, p, now) && ProcessOf(m.s, id).Some? && ProcessOf(After(m, p, now).s, id).Some?
    requires m.s.sessions[id].served
    ensures After(m, p, now).s.sessions[id].served
  {
  }

  lemma {:induction false} TurnServes(m: Moment, p: Part, now: int, id: Id, c: nat)
    requires Possible(m, p, now) && Taken(m, p, c) > 0 && m.s.readers[p.call.reader].session == id && id in m.s.sessions
    ensures id in After(m, p, now).s.sessions && After(m, p, now).s.sessions[id].served
  {
  }

  lemma {:induction false} PartSaysRead(m: Moment, p: Part, now: int)
    requires Sane(m) && Known(m.s) && SaysRead(m.s) && Possible(m, p, now)
    ensures SaysRead(After(m, p, now).s)
  {
    hide After, Possible, Sane, Known, Taken;
    var t := After(m, p, now);
    PartFreshOrKept(m, p, now);
    forall id | ProcessOf(t.s, id).Some? && ProcessOf(t.s, id).value < |t.s.children|
                && t.s.children[ProcessOf(t.s, id).value].pos > 0
      ensures t.s.sessions[id].served
    {
      var c := ProcessOf(t.s, id).value;
      PartPositions(m, p, now, c);
      if Taken(m, p, c) > 0 {
        TakenIsThere(m, p, c);
        TakersAreItsOwn(m, p, id, c);
        TurnServes(m, p, now, id, c);
      } else {
        ServedStays(m, p, now, id);
      }
    }
  }

  lemma {:induction false} TakenIsThere(m: Moment, p: Part, c: nat)
    requires Taken(m, p, c) > 0
    ensures p.Whole? && p.call.NextCall? && p.call.reader < |m.s.readers| && c < |m.s.children|
  {
  }

  lemma {:induction false} SplitRunSaysRead(moments: seq<Moment>, parts: seq<(Part, int)>, i: nat)
    requires IsSplitRun(moments, parts) && i < |moments|
    ensures Sane(moments[i]) && Known(moments[i].s) && SaysRead(moments[i].s)
  {
    SplitRunKnown(moments, parts, i);
    if i > 0 {
      SplitRunSaysRead(moments, parts, i - 1);
      PartSaysRead(moments[i - 1], parts[i - 1].0, parts[i - 1].1);
    }
  }

  /**
   Where a reader's first turn begins, whatever came between it and the first section of an attach to its
   session: at what was taken since off the child it finds, and, if that section found other readers on the same
   child, at where they had got to.  So a reader whose attach found nobody reads from the first byte exactly if
   nobody has read that child since.
   */
  lemma {:induction false} FirstTurnBegins(moments: seq<Moment>, parts: seq<(Part, int)>, i: nat, j: nat, id: Id, r: nat)
    requires IsSplitRun(moments, parts) && i < j < |moments| && parts[i].0 == Rewinds(id)
    requires r < |moments[j].s.readers| && moments[j].s.readers[r] == Reader(id, false, Unstarted)
    requires ChildOf(moments[j].s, r).Some?
    ensures var c, since := ChildOf(moments[j].s, r).value, i + 1;
      var beside := moments[i].s.sessions[id].clients > 0 && moments[i].s.sessions[id].process == Some(c);
      && c < |moments[j].s.children|
      && (beside ==> c < |moments[i].s.children|)
      && moments[j].s.children[c].pos
         == (if beside then moments[i].s.children[c].pos else 0) + TakenBetween(moments, parts, since, j, c)
  {
    var c, m := ChildOf(moments[j].s, r).value, moments[i];
    assert ProcessOf(moments[j].s, id) == Some(c);
    SplitRunSaysRead(moments, parts, i);
    SplitRunSane(moments, parts, j);
    LookLeaves(m, id, parts[i].1);
    BytesAddUp(moments, parts, i + 1, j, c);
    if c < |moments[i + 1].s.children| { OldProcess(moments, parts, i + 1, j, id, c); }
  }

  /** After the first section of an attach nobody else is reading, or the child is as it was. */
  lemma {:induction false} LookLeaves(m: Moment, id: Id, now: int)
    requires Sane(m) && SaysRead(m.s) && Possible(m, Rewinds(id), now)
    ensures var t := After(m, Rewinds(id), now).s;
      && t.children == m.s.children
      && (ProcessOf(t, id).Some? ==>
            && ProcessOf(t, id) == m.s.sessions[id].process && ProcessOf(t, id).value < |m.s.children|
            && (m.s.sessions[id].clients == 0 ==> m.s.children[ProcessOf(t, id).value].pos == 0))
      && (m.s.sessions[id].process.Some? ==> m.s.sessions[id].process.value < |m.s.children|)
  {
    assert ProcessOf(m.s, id) == m.s.sessions[id].process;
  }

  /** Read alone from the start, in terms of the turns between. */
  lemma {:induction false} FromTheStartIff(moments: seq<Moment>, parts: seq<(Part, int)>, i: nat, j: nat, id: Id, r: nat)
    requires IsSplitRun(moments, parts) && i < j < |moments| && parts[i].0 == Rewinds(id)
    requires moments[i].s.sessions[id].clients == 0
    requires r < |moments[j].s.readers| && moments[j].s.readers[r] == Reader(id, false, Unstarted)
    requires ChildOf(moments[j].s, r).Some?
    ensures var c := ChildOf(moments[j].s, r).value;
      && c < |moments[j].s.children|
      && (moments[j].s.children[c].pos == 0 <==> forall k :: i < k < j ==> Taken(moments[k], parts[k].0, c) == 0)
  {
    FirstTurnBegins(moments, parts, i, j, id, r);
    SomeTaken(moments, parts, i + 1, j, ChildOf(moments[j].s, r).value);
  }

  lemma {:induction false} SomeTaken(moments: seq<Moment>, parts: seq<(Part, int)>, i: nat, j: nat, c: nat)
    requires j <= |parts| && j < |moments|
    ensures TakenBetween(moments, parts, i, j, c) == 0 <==> forall k :: i <= k < j ==> Taken(moments[k], parts[k].0, c) == 0
    decreases j
  {
    if i < j { SomeTaken(moments, parts, i, j - 1, c); }
  }
}

/** What the session manager promises its callers, stated over every run of its calls. */
module SessionGuarantees {
  import opened Wrappers
  import opened PlaybackPolicy
  import opened SessionProtocol
  import opened SessionRuns
  import opened SessionIndex

  // ---------------------------------------------------------------- children

  /** Child `c` is the process of the running session `id`, and of no other session. */
  ghost predicate SoleProcess(s: State, c: nat, id: Id) {
    && id in s.sessions && s.sessions[id].process == Some(c) && s.sessions[id].state == Running
    && forall other :: other in s.sessions && other != id ==> s.sessions[other].process != Some(c)
  }

  /** No run leaves a child behind: it was waited on, or one running session still has it. */
  lemma {:induction false} NoOrphanChild(states: seq<State>, events: seq<(Event, int)>, i: nat, c: nat)
    requires IsRun(states, events) && i < |states| && c < |states[i].children|
    ensures states[i].children[c].waited <==> !exists id :: SoleProcess(states[i], c, id)
  {
    RunKeeps(states, events, i);
    var s := states[i];
    if !s.children[c].waited {
      assert Owned(s, c);
      var id :| id in s.sessions && s.sessions[id].process == Some(c);
      assert SoleProcess(s, c, id);
    }
  }

  lemma {:induction false} StopEachStops(s: State, doomed: seq<(Id, StopReason)>, now: int, i: nat)
    requires i < |doomed| && doomed[i].0 in s.sessions
    ensures doomed[i].0 in StopEach(s, doomed, now).sessions
    ensures StopEach(s, doomed, now).sessions[doomed[i].0].state == Stopped
    decreases |doomed|
  {
    var last := |doomed| - 1;
    StopEachDomain(s, doomed[..last], now);
    if i < last {
      assert doomed[..last][i] == doomed[i];
      StopEachStops(s, doomed[..last], now, i);
    }
  }

  lemma {:induction false} StopEachDomain(s: State, doomed: seq<(Id, StopReason)>, now: int)
    ensures StopEach(s, doomed, now).sessions.Keys == s.sessions.Keys
    ensures StopEach(s, doomed, now).issued == s.issued
    ensures StopEach(s, doomed, now).readers == s.readers
    decreases |doomed|
  {
    if doomed != [] { StopEachDomain(s, doomed[..|doomed| - 1], now); }
  }

  lemma {:induction false} StopEachSpares(s: State, doomed: seq<(Id, StopReason)>, now: int, id: Id)
    requires id in s.sessions
    requires forall i :: 0 <= i < |doomed| ==> doomed[i].0 != id
    ensures id in StopEach(s, doomed, now).sessions
    ensures StopEach(s, doomed, now).sessions[id] == s.sessions[id]
    decreases |doomed|
  {
    if doomed != [] {
      var last := |doomed| - 1;
      forall i | 0 <= i < last ensures doomed[..last][i].0 != id { assert doomed[..last][i] == doomed[i]; }
      StopEachSpares(s, doomed[..last], now, id);
    }
  }

  ghost predicate Quiet(s: State) {
    && (forall c :: 0 <= c < |s.children| ==> s.children[c].waited)
    && (forall id :: id in s.sessions ==> !Live(s.sessions[id].state))
  }

  /** Right after shutdown every child has been waited on and no session is live. */
  lemma {:induction false} ShutdownLeavesNothing(states: seq<State>, events: seq<(Event, int)>, i: nat)
    requires IsRun(states, events) && i < |events| && events[i].0.ShutdownCall?
    ensures Quiet(states[i + 1])
  {
    RunKeeps(states, events, i);
    RunKeeps(states, events, i + 1);
    var s, t, doomed, now := states[i], states[i + 1], events[i].0.doomed, events[i].1;
    StopEachDomain(s, doomed, now);
    forall id | id in t.sessions ensures !Live(t.sessions[id].state) {
      if Live(s.sessions[id].state) {
        var k :| 0 <= k < |doomed| && doomed[k].0 == id;
        StopEachStops(s, doomed, now, k);
      } else {
        StopEachSpares(s, doomed, now, id);
      }
    }
    forall c | 0 <= c < |t.children| ensures t.children[c].waited {
      assert !Owned(t, c);
    }
  }

  // ------------------------------------------------------ ended stays ended

  /** An id whose session has ended: its record is stopped with no child, or dropped for good. */
  predicate Ended(s: State, id: Id) {
    && id in s.issued
    && (id in s.sessions ==> s.sessions[id].state == Stopped && s.sessions[id].process == None)
  }

  lemma {:induction false} StopEachEnded(s: State, doomed: seq<(Id, StopReason)>, now: int, id: Id)
    requires Ended(s, id)
    ensures Ended(StopEach(s, doomed, now), id)
    decreases |doomed|
  {
    if doomed != [] { StopEachEnded(s, doomed[..|doomed| - 1], now, id); }
  }

  lemma {:induction false} EndedAttach(s: State, id: Id, spawned: bool, now: int, ended: Id)
    requires Inv(s) && Ended(s, ended)
    ensures Ended(Attach(s, id, spawned, now).0, ended)
  {
    if id in s.sessions && s.sessions[id].mode != DirectMode {
      assert Ended(Rewind(s, id), ended);
      assert Ended(Start(Rewind(s, id), id, spawned).0, ended);
    }
  }

  lemma {:induction false} EndedReader(s: State, r: nat, n: nat, now: int, ended: Id)
    requires Inv(s) && r < |s.readers| && Ended(s, ended)
    ensures Ended(Next(s, r, n, now), ended) && Ended(Close(s, r, now), ended)
  {
  }

  lemma {:induction false} EndedStep(s: State, e: Event, now: int, ended: Id)
    requires Inv(s) && Enabled(s, e, now) && Ended(s, ended)
    ensures Ended(Step(s, e, now), ended)
  {
    match e
    case CreateCall(id, source, ok, d, owner) =>
    case AttachCall(id, spawned) => EndedAttach(s, id, spawned, now, ended);
    case ReadDirectCall(id) =>
    case NextCall(r, n) => EndedReader(s, r, n, now, ended);
    case CloseCall(r) => EndedReader(s, r, 0, now, ended);
    case ReleaseCall(id) =>
    case StopCall(id, reason) =>
    case ReapCall(_, _, doomed) => StopEachEnded(s, doomed, now, ended);
    case ForgetCall(age) =>
    case ShutdownCall(doomed) => StopEachEnded(s, doomed, now, ended);
  }

  /** A stopped session never runs again, whatever is called afterwards. */
  lemma {:induction false} StoppedIsFinal(states: seq<State>, events: seq<(Event, int)>, i: nat, j: nat, id: Id)
    requires IsRun(states, events) && i <= j < |states|
    requires id in states[i].sessions && states[i].sessions[id].state == Stopped
    ensures Ended(states[j], id)
    decreases j
  {
    RunKeeps(states, events, i);
    if i < j {
      StoppedIsFinal(states, events, i, j - 1, id);
      RunKeeps(states, events, j - 1);
      EndedStep(states[j - 1], events[j - 1].0, events[j - 1].1, id);
    }
  }

  // -------------------------------------------------------- readers and reaper

  lemma {:induction false} UncollectedPositive(readers: seq<Reader>, r: nat, id: Id)
    requires r < |readers| && Counts(readers[r], id)
    ensures Uncollected(readers, id) > 0
  {
    if r < |readers| - 1 { UncollectedPositive(readers[..|readers| - 1], r, id); }
  }

  /** The client count of a live session is its number of readers not yet let go; a direct one has no others. */
  lemma {:induction false} ClientsAreReaders(states: seq<State>, events: seq<(Event, int)>, i: nat, id: Id)
    requires IsRun(states, events) && i < |states|
    requires id in states[i].sessions && Live(states[i].sessions[id].state)
    ensures states[i].sessions[id].clients == Uncollected(states[i].readers, id)
    ensures states[i].sessions[id].mode == DirectMode ==>
      forall r :: 0 <= r < |states[i].readers| && states[i].readers[r].session == id ==>
        states[i].readers[r].direct && (states[i].readers[r].phase == Unstarted || states[i].readers[r].phase == Closed)
  {
    RunKeeps(states, events, i);
    var s := states[i];
    forall r | s.sessions[id].mode == DirectMode && 0 <= r < |s.readers| && s.readers[r].session == id
      ensures s.readers[r].direct && (s.readers[r].phase == Unstarted || s.readers[r].phase == Closed)
    {
      assert ReaderOk(s, s.readers[r]);
    }
  }

  /**
   Closing a reader uncounts it exactly when it is a direct one or has taken its first turn: a relay
   generator closed before that never reaches its `finally`.
   */
  lemma {:induction false} CloseUncountsIff(s: State, r: nat, now: int)
    requires Inv(s) && r < |s.readers|
    requires s.readers[r].phase != Closed && s.readers[r].phase != Abandoned
    requires s.readers[r].session in s.sessions && s.sessions[s.readers[r].session].state != Stopped
    ensures var id := s.readers[r].session;
      && id in Close(s, r, now).sessions
      && (Close(s, r, now).sessions[id].clients == s.sessions[id].clients - 1
          <==> (s.readers[r].direct || s.readers[r].phase != Unstarted))
  {
    UncollectedPositive(s.readers, r, s.readers[r].session);
  }

  /** Handles are only ever added, and a lost one stays lost. */
  lemma {:induction false} LostStaysLost(s: State, e: Event, now: int, r: nat)
    requires Inv(s) && Enabled(s, e, now) && r < |s.readers| && s.readers[r].phase == Abandoned
    ensures r < |Step(s, e, now).readers| && Step(s, e, now).readers[r] == s.readers[r]
  {
    match e
    case AttachCall(id, spawned) => if id in s.sessions { RewindKeeps(s, id); }
    case ReapCall(_, _, doomed) => StopEachDomain(s, doomed, now);
    case ShutdownCall(doomed) => StopEachDomain(s, doomed, now);
    case _ =>
  }

  lemma {:induction false} LostForGood(states: seq<State>, events: seq<(Event, int)>, i: nat, j: nat, r: nat)
    requires IsRun(states, events) && i <= j < |states| && r < |states[i].readers|
    requires states[i].readers[r].phase == Abandoned
    ensures r < |states[j].readers| && states[j].readers[r] == states[i].readers[r]
    decreases j
  {
    if i < j {
      LostForGood(states, events, i, j - 1, r);
      RunKeeps(states, events, j - 1);
      LostStaysLost(states[j - 1], events[j - 1].0, events[j - 1].1, r);
    }
  }

  /** A session with such a lost reader is never again idle to the reaper, as long as it is live. */
  lemma {:induction false} LostReaderHolds(states: seq<State>, events: seq<(Event, int)>, i: nat, j: nat, r: nat,
                        now: int, ttl: nat, exited: set<nat>)
    requires IsRun(states, events) && i <= j < |states| && r < |states[i].readers|
    requires states[i].readers[r].phase == Abandoned && states[i].readers[r].session in states[j].sessions
    ensures Verdict(states[j].sessions[states[i].readers[r].session], now, ttl, exited) != Some(Idle)
  {
    LostForGood(states, events, i, j, r);
    RunKeeps(states, events, j);
    var id := states[i].readers[r].session;
    if Live(states[j].sessions[id].state) { UncollectedPositive(states[j].readers, r, id); }
  }

  // -------------------------------------------------------------- lone reader

  lemma {:induction false} StartPlaces(s: State, id: Id, spawned: bool)
    requires Inv(s) && id in s.sessions && Start(s, id, spawned).1.None?
    ensures var t := Start(s, id, spawned).0;
      && id in t.sessions && t.sessions[id].process.Some? && t.sessions[id].process.value < |t.children|
      && (s.sessions[id].process.Some? ==> t == s)
      && (s.sessions[id].process.None? ==> t.children[t.sessions[id].process.value] == Child(0, false))
  {
    assert RecordOk(s.sessions[id], s.children);
  }

  /**
   A reader `attach` admits finds a running child.  Arriving alone, it finds one nobody has read;
   arriving beside another, it leaves that reader's child as it was.
   */
  lemma {:induction false} AttachedReader(states: seq<State>, events: seq<(Event, int)>, i: nat)
    requires IsRun(states, events) && i < |events| && events[i].0.AttachCall?
    requires Attach(states[i], events[i].0.id, events[i].0.spawned, events[i].1).1.Returned?
    ensures var id, s, t := events[i].0.id, states[i], states[i + 1];
      var r := Attach(s, id, events[i].0.spawned, events[i].1).1.handle;
      && id in s.sessions && id in t.sessions && r < |t.readers| && t.readers[r] == Reader(id, false, Unstarted)
      && ChildOf(t, r).Some? && ChildOf(t, r).value < |t.children| && !t.children[ChildOf(t, r).value].waited
      && (s.sessions[id].clients == 0 ==> t.children[ChildOf(t, r).value].pos == 0)
      && (s.sessions[id].clients > 0 && s.sessions[id].process.Some? ==>
            ChildOf(t, r) == s.sessions[id].process && t.children == s.children)
  {
    var id, s, spawned := events[i].0.id, states[i], events[i].0.spawned;
    RunKeeps(states, events, i);
    RewindKeeps(s, id);
    StartPlaces(Rewind(s, id), id, spawned);
    RunKeeps(states, events, i + 1);
    assert RecordOk(states[i + 1].sessions[id], states[i + 1].children);
  }

  /** A child's first byte goes to a reader of its own session; nothing else moves a pipe. */
  lemma {:induction false} OnlyReadersAdvance(s: State, e: Event, now: int, c: nat)
    requires Inv(s) && Enabled(s, e, now) && c < |s.children|
    ensures c < |Step(s, e, now).children|
    ensures Step(s, e, now).children[c].pos != s.children[c].pos ==>
      && e.NextCall? && ChildOf(s, e.reader) == Some(c)
      && s.readers[e.reader].session in s.sessions
      && s.sessions[s.readers[e.reader].session].process == Some(c)
      && Step(s, e, now).children[c].pos == s.children[c].pos + e.bytes
  {
    match e
    case ReapCall(_, _, doomed) => StopEachPositions(s, doomed, now, c);
    case ShutdownCall(doomed) => StopEachPositions(s, doomed, now, c);
    case NextCall(r, n) => TurnAdvances(s, r, n, now, c);
    case AttachCall(id, spawned) => AttachPositions(s, id, spawned, now, c);
    case _ =>
  }

  lemma {:induction false} AttachPositions(s: State, id: Id, spawned: bool, now: int, c: nat)
    requires c < |s.children|
    ensures var t := Attach(s, id, spawned, now).0; c < |t.children| && t.children[c].pos == s.children[c].pos
  {
    if id in s.sessions && s.sessions[id].mode != DirectMode {
      var rewound := Rewind(s, id);
      assert |rewound.children| == |s.children| && rewound.children[c].pos == s.children[c].pos;
    }
  }

  lemma {:induction false} TurnAdvances(s: State, r: nat, n: nat, now: int, c: nat)
    requires Inv(s) && r < |s.readers| && c < |s.children|
    ensures var t := Next(s, r, n, now);
      c < |t.children| && (t.children[c].pos != s.children[c].pos ==>
        && ChildOf(s, r) == Some(c) && s.readers[r].session in s.sessions
        && s.sessions[s.readers[r].session].process == Some(c) && t.children[c].pos == s.children[c].pos + n)
  {
    assert ReaderOk(s, s.readers[r]);
  }

  lemma {:induction false} StopEachPositions(s: State, doomed: seq<(Id, StopReason)>, now: int, c: nat)
    requires c < |s.children|
    ensures |StopEach(s, doomed, now).children| == |s.children|
    ensures StopEach(s, doomed, now).children[c].pos == s.children[c].pos
    decreases |doomed|
  {
    if doomed != [] { StopEachPositions(s, doomed[..|doomed| - 1], now, c); }
  }

  /** Reader `r` is the only one on session `id` and has yet to take its first turn on child `c`. */
  ghost predicate FirstInLine(s: State, id: Id, r: nat, c: nat) {
    && r < |s.readers| && s.readers[r] == Reader(id, false, Unstarted)
    && (forall q :: 0 <= q < |s.readers| && q != r && s.readers[q].session == id ==> s.readers[q].phase == Closed)
    && id in s.sessions && s.sessions[id].process == Some(c) && c < |s.children| && s.children[c].pos == 0
  }

  lemma {:induction false} NoneLeft(readers: seq<Reader>, id: Id, q: nat)
    requires Uncollected(readers, id) == 0 && q < |readers| && readers[q].session == id
    ensures readers[q].phase == Closed
  {
    if q < |readers| - 1 { NoneLeft(readers[..|readers| - 1], id, q); }
  }

  lemma {:induction false} FirstInLineStep(s: State, e: Event, now: int, id: Id, r: nat, c: nat)
    requires Inv(s) && Enabled(s, e, now) && FirstInLine(s, id, r, c)
    requires !(e.AttachCall? && e.id == id) && !(e.NextCall? && e.reader == r) && !(e.CloseCall? && e.reader == r)
    ensures FirstInLine(Step(s, e, now), id, r, c) || Ended(Step(s, e, now), id)
  {
    match e
    case CreateCall(_, _, _, _, _) =>
    case AttachCall(other, spawned) => OtherAttach(s, other, spawned, now, id, r, c);
    case ReadDirectCall(other) => assert RecordOk(s.sessions[id], s.children);
    case NextCall(q, n) => OtherTurn(s, q, n, now, id, r, c);
    case CloseCall(q) => OtherTurn(s, q, 0, now, id, r, c);
    case ReleaseCall(_) =>
    case StopCall(other, reason) => assert Unshared(s) && RecordOk(s.sessions[id], s.children);
    case ReapCall(_, _, doomed) => StoppedOrSpared(s, doomed, now, id); StopEachPositions(s, doomed, now, c);
    case ForgetCall(_) => assert RecordOk(s.sessions[id], s.children);
    case ShutdownCall(doomed) => StoppedOrSpared(s, doomed, now, id); StopEachPositions(s, doomed, now, c);
  }

  lemma {:induction false} StoppedOrSpared(s: State, doomed: seq<(Id, StopReason)>, now: int, id: Id)
    requires Inv(s) && id in s.sessions
    ensures StopEach(s, doomed, now).readers == s.readers
    ensures Ended(StopEach(s, doomed, now), id)
      || (id in StopEach(s, doomed, now).sessions && StopEach(s, doomed, now).sessions[id] == s.sessions[id])
  {
    StopEachDomain(s, doomed, now);
    StopEachKeeps(s, doomed, now);
    if i :| 0 <= i < |doomed| && doomed[i].0 == id { StopEachStops(s, doomed, now, i); }
    else { StopEachSpares(s, doomed, now, id); }
  }

  lemma {:induction false} OtherAttach(s: State, other: Id, spawned: bool, now: int, id: Id, r: nat, c: nat)
    requires Inv(s) && FirstInLine(s, id, r, c) && other != id
    ensures FirstInLine(Attach(s, other, spawned, now).0, id, r, c)
  {
    if other in s.sessions && s.sessions[other].mode != DirectMode {
      assert FirstInLine(Rewind(s, other), id, r, c);
      assert FirstInLine(Start(Rewind(s, other), other, spawned).0, id, r, c);
    }
  }

  lemma {:induction false} OtherTurn(s: State, q: nat, n: nat, now: int, id: Id, r: nat, c: nat)
    requires Inv(s) && FirstInLine(s, id, r, c) && q < |s.readers| && q != r
    ensures FirstInLine(Next(s, q, n, now), id, r, c)
    ensures FirstInLine(Close(s, q, now), id, r, c)
  {
    assert ReaderOk(s, s.readers[q]);
    if s.readers[q].session != id {
      assert ChildOf(s, q) != Some(c);
    }
  }

  /**
   A reader that arrived alone gets the stream from its first byte: until another reader is admitted
   beside it, its first turn finds its child unread, unless the session was ended first.
   */
  lemma {:induction false} LoneReaderSeesTheStart(states: seq<State>, events: seq<(Event, int)>, i: nat, j: nat)
    requires IsRun(states, events) && i < j < |states| && events[i].0.AttachCall?
    requires Attach(states[i], events[i].0.id, events[i].0.spawned, events[i].1).1.Returned?
    requires events[i].0.id in states[i].sessions && states[i].sessions[events[i].0.id].clients == 0
    requires forall k :: i < k < j ==>
      && !(events[k].0.AttachCall? && events[k].0.id == events[i].0.id)
      && !(events[k].0.NextCall? && events[k].0.reader == |states[i].readers|)
      && !(events[k].0.CloseCall? && events[k].0.reader == |states[i].readers|)
    ensures var id, r := events[i].0.id, |states[i].readers|;
      Ended(states[j], id) || exists c: nat :: FirstInLine(states[j], id, r, c) && ChildOf(states[j], r) == Some(c)
    decreases j
  {
    var id, r := events[i].0.id, |states[i].readers|;
    if j == i + 1 {
      AttachedReader(states, events, i);
      RunKeeps(states, events, i);
      var s, t := states[i], states[j];
      RewindKeeps(s, id);
      if s.sessions[id].state != Stopped {
        forall q | 0 <= q < |s.readers| && s.readers[q].session == id ensures s.readers[q].phase == Closed {
          NoneLeft(s.readers, id, q);
        }
      }
      assert FirstInLine(t, id, r, ChildOf(t, r).value);
    } else {
      LoneReaderSeesTheStart(states, events, i, j - 1);
      RunKeeps(states, events, j - 1);
      var s, e, now := states[j - 1], events[j - 1].0, events[j - 1].1;
      if Ended(s, id) { EndedStep(s, e, now, id); }
      else {
        var c: nat :| FirstInLine(s, id, r, c) && ChildOf(s, r) == Some(c);
        FirstInLineStep(s, e, now, id, r, c);
      }
    }
  }

  // ------------------------------------------------------------------- create

  /**
   What gets a session made: the source is allowed and playable, and either it is played as it is, or the
   decision as it was made has a command, which could be built.  A choice the policy advised against has
   none, though it is played in the mode it would otherwise have had.
   */
  predicate Grants(ok: Checks, d: Decision) {
    && ok.source
    && match d.mode
       case Direct => true
       case FallbackSourcePreferred => !d.encodesAudio && !d.remuxNoted
       case DirectWithAudioTranscode => ok.build == Built && d.videoFound && d.encodesAudio && d.trackChosen
       case Remux => ok.build == Built && d.videoFound
       case Unsupported => false
  }

  /** When `create` returns a session, and when that is one made just now. */
  lemma {:induction false} CreateSucceedsIff(s: State, id: Id, source: string, ok: Checks, d: Decision,
                                             owner: Option<string>, now: int)
    requires id !in s.sessions
    ensures var live := LiveFor(s, (source, SessionModeFor(ModeWhenChosen(d))));
      var (t, outcome) := Create(s, id, source, ok, d, owner, now);
      && (outcome.Returned? <==> ok.source && d.mode != Unsupported && (live.Some? || Grants(ok, d)))
      && (id in t.sessions <==> ok.source && d.mode != Unsupported && live.None? && Grants(ok, d))
  {
  }

  /** How a choice is played: with its sound encoded, in another container, or as it is. */
  predicate IsPlayedIn(d: Decision, mode: SessionMode) {
    match mode
    case AudioTranscodeMode => d.mode == DirectWithAudioTranscode || (d.mode == FallbackSourcePreferred && d.encodesAudio)
    case RemuxMode => d.mode == Remux || (d.mode == FallbackSourcePreferred && !d.encodesAudio && d.remuxNoted)
    case DirectMode =>
      d.mode == Direct || d.mode == Unsupported || (d.mode == FallbackSourcePreferred && !d.encodesAudio && !d.remuxNoted)
  }

  /** What `create` returns plays the source it was asked for, as the choice is played, and is its caller's. */
  lemma {:induction false} CreatedPlays(s: State, id: Id, source: string, ok: Checks, d: Decision,
                                        owner: Option<string>, now: int)
    requires IndexSound(s) && Create(s, id, source, ok, d, owner, now).1.Returned?
    ensures var (t, outcome) := Create(s, id, source, ok, d, owner, now);
      && outcome.handle in t.sessions
      && var rec := t.sessions[outcome.handle];
      && rec.source == source && IsPlayedIn(d, rec.mode) && Live(rec.state) && rec.lastSeen == now
      && (owner.Some? ==> rec.owner == owner)
      && (rec.mode == DirectMode && outcome.handle == id && id !in s.sessions ==> rec.state == Running)
  {
  }

  /** Why `create` refuses, the first of what there is against it. */
  lemma {:induction false} CreateRefusesWith(s: State, id: Id, source: string, ok: Checks, d: Decision,
                                             owner: Option<string>, now: int)
    requires Create(s, id, source, ok, d, owner, now).1.Raised?
    ensures var commandable := d.videoFound
        && (d.mode == Remux || (d.mode == DirectWithAudioTranscode && d.encodesAudio && d.trackChosen));
      match Create(s, id, source, ok, d, owner, now).1.error
      case SourceRefused => !ok.source
      case SourceUnsupported => ok.source && d.mode == Unsupported
      case ModeMismatch => ok.source && d.mode != Unsupported && !commandable
      case FFmpegMissing => ok.source && commandable && ok.build == NoBinary
      case VideoCopyViolation => ok.source && commandable && ok.build == NotACopy
      case _ => false
  {
  }

  /**
   When and why `attach` refuses: there is no such session, it is direct, it has ended, or its child could not be
   started, of which a running one needs none unless the reader comes alone to a child that was read.
   */
  lemma {:induction false} AttachRefusesIff(s: State, id: Id, spawned: bool, now: int)
    requires Inv(s)
    ensures var outcome := Attach(s, id, spawned, now).1;
      if id !in s.sessions then outcome == Raised(NotFound)
      else if s.sessions[id].mode == DirectMode then outcome == Raised(SessionIsDirect)
      else if s.sessions[id].state == Stopped then outcome == Raised(SessionStopped)
      else
        var rec := s.sessions[id];
        var has := rec.process.Some? && (rec.clients > 0 || !rec.served);
        outcome == if has || spawned then Returned(|s.readers|) else Raised(StartFailed)
  {
    if id in s.sessions { assert RecordOk(s.sessions[id], s.children); }
  }

  /** The call that made session `id`, and that it was one that could. */
  predicate Made(e: Event, id: Id, rec: Rec) {
    && e.CreateCall? && e.id == id && Grants(e.checks, e.decision)
    && KeyOf(rec) == (e.source, SessionModeFor(ModeWhenChosen(e.decision)))
  }

  lemma {:induction false} StopEachKeys(s: State, doomed: seq<(Id, StopReason)>, now: int, id: Id)
    requires id in s.sessions
    ensures id in StopEach(s, doomed, now).sessions && KeyOf(StopEach(s, doomed, now).sessions[id]) == KeyOf(s.sessions[id])
    decreases |doomed|
  {
    if doomed != [] { StopEachKeys(s, doomed[..|doomed| - 1], now, id); }
  }

  lemma {:induction false} StartKeys(s: State, id: Id, spawned: bool, o: Id)
    requires id in s.sessions && o in s.sessions
    ensures o in Start(s, id, spawned).0.sessions && KeyOf(Start(s, id, spawned).0.sessions[o]) == KeyOf(s.sessions[o])
  {
  }

  lemma {:induction false} AttachKeys(s: State, id: Id, spawned: bool, now: int, o: Id)
    ensures Attach(s, id, spawned, now).0.sessions.Keys == s.sessions.Keys
    ensures o in s.sessions ==> KeyOf(Attach(s, id, spawned, now).0.sessions[o]) == KeyOf(s.sessions[o])
  {
    if id in s.sessions && s.sessions[id].mode != DirectMode {
      var rewound := Rewind(s, id);
      assert rewound.sessions.Keys == s.sessions.Keys;
      if o in s.sessions {
        assert KeyOf(rewound.sessions[o]) == KeyOf(s.sessions[o]);
        StartKeys(rewound, id, spawned, o);
      }
    }
  }

  /** No call changes what a session plays and how, and only a call that grants it makes one. */
  lemma {:induction false} SessionsKeepTheirKeys(s: State, e: Event, now: int, id: Id)
    requires Inv(s) && Enabled(s, e, now) && id in Step(s, e, now).sessions
    ensures if id in s.sessions then KeyOf(Step(s, e, now).sessions[id]) == KeyOf(s.sessions[id])
      else Made(e, id, Step(s, e, now).sessions[id])
  {
    match e
    case CreateCall(_, _, _, _, _) =>
    case AttachCall(other, spawned) => AttachKeys(s, other, spawned, now, id);
    case ReadDirectCall(_) =>
    case NextCall(r, n) => NextAlike(s, r, n, now);
    case CloseCall(r) => CloseAlike(s, r, now);
    case ReleaseCall(_) =>
    case StopCall(_, _) =>
    case ReapCall(_, _, doomed) => StopEachDomain(s, doomed, now); if id in s.sessions { StopEachKeys(s, doomed, now, id); }
    case ForgetCall(_) =>
    case ShutdownCall(doomed) => StopEachDomain(s, doomed, now); if id in s.sessions { StopEachKeys(s, doomed, now, id); }
  }

  /** Every session of every run was made by a call that grants it: none stands for a choice without a command. */
  lemma {:induction false} EverySessionWasGranted(states: seq<State>, events: seq<(Event, int)>, i: nat, id: Id)
    requires IsRun(states, events) && i < |states| && id in states[i].sessions
    ensures exists k :: 0 <= k < i && Made(events[k].0, id, states[i].sessions[id])
  {
    assert i > 0;
    RunKeeps(states, events, i - 1);
    SessionsKeepTheirKeys(states[i - 1], events[i - 1].0, events[i - 1].1, id);
    if id in states[i - 1].sessions {
      EverySessionWasGranted(states, events, i - 1, id);
      var k :| 0 <= k < i - 1 && Made(events[k].0, id, states[i - 1].sessions[id]);
      assert Made(events[k].0, id, states[i].sessions[id]);
    }
  }
}

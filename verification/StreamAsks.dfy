/**
 The table of stream requests of media/stremio/adapter.py: requests that are shared while they run,
 outlive the reply they were made for, and keep a late answer for whoever asks next.
 */
module StreamAsks {
  import opened Wrappers

  /** One addon's request for one title: addon id, type, title. */
  type Key = (string, string, string)

  type Streams = seq<string>

  const LATE_ANSWER_SECONDS: nat := 120

  datatype Ask = Ask(key: Key, done: bool, streams: Option<Streams>, finishedAt: Option<int>, outlived: bool)

  /** Every request ever made, in order, and which of them the table holds. */
  datatype State = State(asks: seq<Ask>, table: map<Key, nat>)

  const InitialState := State([], map[])

  // ------------------------------------------------------- sections under the lock

  predicate Stale(s: State, key: Key, now: int)
    requires key in s.table
  {
    s.table[key] < |s.asks|
    && s.asks[s.table[key]].finishedAt.Some?
    && now - s.asks[s.table[key]].finishedAt.value >= LATE_ANSWER_SECONDS
  }

  /** Answers nobody came for in time leave the table. */
  function Expire(s: State, now: int): State {
    s.(table := map key | key in s.table && !Stale(s, key, now) :: s.table[key])
  }

  /** The request already running for `key`, or holding a late answer to it. */
  function Held(s: State, key: Key): Option<nat> {
    if key in s.table && s.table[key] < |s.asks|
       && (!s.asks[s.table[key]].done || s.asks[s.table[key]].streams.Some?)
    then Some(s.table[key]) else None
  }

  /** `_ask_for_streams`: the request held for `key`, or a new one. */
  function AskFor(s: State, key: Key, now: int): (State, nat) {
    var swept := Expire(s, now);
    match Held(swept, key)
    case Some(i) => (swept, i)
    case None =>
      (State(swept.asks + [Ask(key, false, None, None, false)], swept.table[key := |swept.asks|]), |swept.asks|)
  }

  function Leave(s: State, i: nat): State
    requires i < |s.asks|
  {
    var key := s.asks[i].key;
    if key in s.table && s.table[key] == i then s.(table := s.table - {key}) else s
  }

  /** The end of request `i`: it stays in the table only as a late answer. */
  function Finish(s: State, i: nat, streams: Option<Streams>, now: int): State
    requires i < |s.asks|
  {
    var t := s.(asks := s.asks[i := s.asks[i].(done := true, streams := streams, finishedAt := Some(now))]);
    if !s.asks[i].outlived || streams.None? then Leave(t, i) else t
  }

  /** What the reply does with one request: named as loading, or handed over. */
  function Settle(s: State, i: nat): State
    requires i < |s.asks|
  {
    if !s.asks[i].done then s.(asks := s.asks[i := s.asks[i].(outlived := true)])
    else if s.asks[i].outlived then Leave(s, i) else s
  }

  function SettleAll(s: State, mine: seq<nat>): State
    requires forall k :: 0 <= k < |mine| ==> mine[k] < |s.asks|
    ensures |SettleAll(s, mine).asks| == |s.asks|
    decreases |mine|
  {
    if mine == [] then s else Settle(SettleAll(s, mine[..|mine| - 1]), mine[|mine| - 1])
  }

  // ------------------------------------------------------------------- runs

  datatype Event =
    | Opens(key: Key)
    | Finishes(ask: nat, streams: Option<Streams>)
    | Replies(mine: seq<nat>)

  ghost predicate Enabled(s: State, e: Event) {
    match e
    case Opens(_) => true
    case Finishes(i, _) => i < |s.asks| && !s.asks[i].done
    case Replies(mine) => forall k :: 0 <= k < |mine| ==> mine[k] < |s.asks|
  }

  ghost function Step(s: State, e: Event, now: int): State
    requires Enabled(s, e)
  {
    match e
    case Opens(key) => AskFor(s, key, now).0
    case Finishes(i, streams) => Finish(s, i, streams, now)
    case Replies(mine) => SettleAll(s, mine)
  }

  /** An interleaving of any callers and requests, on a clock that never goes back. */
  ghost predicate IsRun(states: seq<State>, events: seq<(Event, int)>) {
    && |states| == |events| + 1 && states[0] == InitialState
    && (forall i :: 0 <= i < |events| ==>
          Enabled(states[i], events[i].0) && states[i + 1] == Step(states[i], events[i].0, events[i].1))
    && (forall i, j :: 0 <= i <= j < |events| ==> events[i].1 <= events[j].1)
  }

  // -------------------------------------------------------------- invariants

  ghost predicate Inv(s: State) {
    && (forall key :: key in s.table ==> s.table[key] < |s.asks| && s.asks[s.table[key]].key == key)
    && (forall i :: 0 <= i < |s.asks| && !s.asks[i].done ==> s.asks[i].key in s.table && s.table[s.asks[i].key] == i)
    && (forall key :: key in s.table && s.asks[s.table[key]].done ==>
          s.asks[s.table[key]].outlived && s.asks[s.table[key]].streams.Some?)
    && (forall i :: 0 <= i < |s.asks| ==>
          && (s.asks[i].done <==> s.asks[i].finishedAt.Some?)
          && (s.asks[i].streams.Some? ==> s.asks[i].done))
  }

  lemma {:induction false} ExpireKeeps(s: State, now: int)
    requires Inv(s)
    ensures Inv(Expire(s, now))
  {
  }

  lemma {:induction false} AskKeeps(s: State, key: Key, now: int)
    requires Inv(s)
    ensures Inv(AskFor(s, key, now).0)
    ensures AskFor(s, key, now).1 < |AskFor(s, key, now).0.asks|
    ensures AskFor(s, key, now).0.asks[AskFor(s, key, now).1].key == key
  {
    ExpireKeeps(s, now);
  }

  lemma {:induction false} LeaveKeeps(s: State, i: nat)
    requires Inv(s) && i < |s.asks| && s.asks[i].done
    ensures Inv(Leave(s, i))
  {
  }

  lemma {:induction false} FinishKeeps(s: State, i: nat, streams: Option<Streams>, now: int)
    requires Inv(s) && i < |s.asks| && !s.asks[i].done
    ensures Inv(Finish(s, i, streams, now))
  {
  }

  lemma {:induction false} SettleKeeps(s: State, i: nat)
    requires Inv(s) && i < |s.asks|
    ensures Inv(Settle(s, i)) && |Settle(s, i).asks| == |s.asks|
  {
    if s.asks[i].done && s.asks[i].outlived { LeaveKeeps(s, i); }
  }

  lemma {:induction false} SettleAllKeeps(s: State, mine: seq<nat>)
    requires Inv(s) && forall k :: 0 <= k < |mine| ==> mine[k] < |s.asks|
    ensures Inv(SettleAll(s, mine))
    decreases |mine|
  {
    if mine != [] {
      SettleAllKeeps(s, mine[..|mine| - 1]);
      SettleKeeps(SettleAll(s, mine[..|mine| - 1]), mine[|mine| - 1]);
    }
  }

  lemma {:induction false} RunKeeps(states: seq<State>, events: seq<(Event, int)>, i: nat)
    requires IsRun(states, events) && i < |states|
    ensures Inv(states[i])
  {
    if i > 0 {
      RunKeeps(states, events, i - 1);
      var s, e, now := states[i - 1], events[i - 1].0, events[i - 1].1;
      match e
      case Opens(key) => AskKeeps(s, key, now);
      case Finishes(a, streams) => FinishKeeps(s, a, streams, now);
      case Replies(mine) => SettleAllKeeps(s, mine);
    }
  }

  /** At most one request runs for an addon and a title, and it is the one the next caller is given. */
  lemma {:induction false} OneRequestPerKey(states: seq<State>, events: seq<(Event, int)>, i: nat, a: nat, b: nat, now: int)
    requires IsRun(states, events) && i < |states| && a < |states[i].asks| && b < |states[i].asks|
    requires !states[i].asks[a].done && !states[i].asks[b].done && states[i].asks[a].key == states[i].asks[b].key
    ensures a == b && AskFor(states[i], states[i].asks[a].key, now).1 == a
  {
    RunKeeps(states, events, i);
  }

  // -------------------------------------------------------- what a reply says

  /** What a reply carries for one request of its own. */
  datatype Word = Answer(streams: Streams) | Loading | Failure

  function WordOn(ask: Ask): Word {
    if !ask.done then Loading
    else match ask.streams case Some(found) => Answer(found) case None => Failure
  }

  /** What the results carry for a request: nothing while it runs or when it failed. */
  function AnswerOf(ask: Ask): Streams { if ask.done then ask.streams.GetOr([]) else [] }

  function Results(s: State, mine: seq<nat>): seq<Streams>
    requires forall k :: 0 <= k < |mine| ==> mine[k] < |s.asks|
  {
    seq(|mine|, k requires 0 <= k < |mine| => AnswerOf(s.asks[mine[k]]))
  }

  /** The positions of a caller's requests that are still loading. */
  function LoadingAt(s: State, mine: seq<nat>): seq<nat>
    requires forall k :: 0 <= k < |mine| ==> mine[k] < |s.asks|
    decreases |mine|
  {
    if mine == [] then []
    else
      var last := |mine| - 1;
      LoadingAt(s, mine[..last]) + if WordOn(s.asks[mine[last]]) == Loading then [last] else []
  }

  /** In order, exactly the requests that have not answered. */
  lemma {:induction false} LoadingIsUnanswered(s: State, mine: seq<nat>)
    requires forall k :: 0 <= k < |mine| ==> mine[k] < |s.asks|
    ensures forall k :: k in LoadingAt(s, mine) <==> 0 <= k < |mine| && !s.asks[mine[k]].done
    ensures forall i, j :: 0 <= i < j < |LoadingAt(s, mine)| ==> LoadingAt(s, mine)[i] < LoadingAt(s, mine)[j]
    decreases |mine|
  {
    if mine != [] {
      LoadingIsUnanswered(s, mine[..|mine| - 1]);
      var before := LoadingAt(s, mine[..|mine| - 1]);
      assert forall i :: 0 <= i < |before| ==> before[i] in before;
    }
  }

  /** Settling never changes whether a request is done or what it answered. */
  lemma {:induction false} SettleAllAnswers(s: State, mine: seq<nat>, i: nat)
    requires (forall k :: 0 <= k < |mine| ==> mine[k] < |s.asks|) && i < |s.asks|
    ensures var a, b := s.asks[i], SettleAll(s, mine).asks[i];
      && a.key == b.key && a.done == b.done && a.streams == b.streams && a.finishedAt == b.finishedAt
      && (b.outlived <==> a.outlived || (!a.done && i in mine))
    decreases |mine|
  {
    if mine != [] {
      SettleAllAnswers(s, mine[..|mine| - 1], i);
      assert mine == mine[..|mine| - 1] + [mine[|mine| - 1]];
    }
  }

  /** An entry leaves the table in a reply exactly when it was handed over in it. */
  lemma {:induction false} SettleAllTable(s: State, mine: seq<nat>, key: Key)
    requires Inv(s) && (forall k :: 0 <= k < |mine| ==> mine[k] < |s.asks|) && key in s.table
    ensures key in SettleAll(s, mine).table <==> !(s.asks[s.table[key]].done && s.table[key] in mine)
    ensures key in SettleAll(s, mine).table ==> SettleAll(s, mine).table[key] == s.table[key]
    decreases |mine|
  {
    if mine != [] {
      var before, i := SettleAll(s, mine[..|mine| - 1]), mine[|mine| - 1];
      SettleAllTable(s, mine[..|mine| - 1], key);
      SettleAllAnswers(s, mine[..|mine| - 1], i);
      SettleAllAnswers(s, mine[..|mine| - 1], s.table[key]);
      SettleAllKeeps(s, mine[..|mine| - 1]);
      assert mine == mine[..|mine| - 1] + [i];
    }
  }

  /**
   Each of a reply's requests is accounted for: its answer is in the results, or it is loading and then
   held for the next caller as one a reply went without, or it failed and the next caller asks anew.
   */
  lemma {:induction false} ReplyAccountsForAll(states: seq<State>, events: seq<(Event, int)>, i: nat, k: nat, now: int)
    requires IsRun(states, events) && i < |events| && events[i].0.Replies? && k < |events[i].0.mine|
    ensures var mine := events[i].0.mine;
      var s, t, a := states[i], states[i + 1], mine[k];
      match WordOn(s.asks[a])
      case Answer(found) => Results(s, mine)[k] == found
      case Loading =>
        && Results(s, mine)[k] == [] && t.asks[a].outlived
        && AskFor(t, s.asks[a].key, now).1 == a
      case Failure => Results(s, mine)[k] == [] && AskFor(t, s.asks[a].key, now).1 != a
  {
    var mine := events[i].0.mine;
    RunKeeps(states, events, i);
    RunKeeps(states, events, i + 1);
    SettleAllAnswers(states[i], mine, mine[k]);
  }

  // ------------------------------------------------------------- late answers

  /** Request `i` has answered `found` at `t`, late, and the table holds the answer. */
  ghost predicate Kept(s: State, i: nat, found: Streams, t: int) {
    && i < |s.asks| && s.asks[i].done && s.asks[i].streams == Some(found) && s.asks[i].finishedAt == Some(t)
    && s.asks[i].key in s.table && s.table[s.asks[i].key] == i
  }

  lemma {:induction false} KeptStep(s: State, e: Event, now: int, i: nat, found: Streams, t: int)
    requires Inv(s) && Enabled(s, e) && Kept(s, i, found, t)
    requires e.Opens? ==> now - t < LATE_ANSWER_SECONDS
    requires e.Replies? ==> i !in e.mine
    ensures Kept(Step(s, e, now), i, found, t)
    ensures i < |s.asks| && i < |Step(s, e, now).asks| && Step(s, e, now).asks[i].key == s.asks[i].key
  {
    match e
    case Replies(mine) =>
      SettleAllTable(s, mine, s.asks[i].key);
      SettleAllAnswers(s, mine, i);
    case _ =>
  }

  /** What a request answered stays its answer. */
  lemma {:induction false} AnswerStands(states: seq<State>, events: seq<(Event, int)>, a: nat, b: nat, i: nat)
    requires IsRun(states, events) && a <= b < |states| && i < |states[a].asks| && states[a].asks[i].done
    ensures i < |states[b].asks| && states[b].asks[i].done && states[b].asks[i].streams == states[a].asks[i].streams
    decreases b
  {
    if a < b {
      AnswerStands(states, events, a, b - 1, i);
      if events[b - 1].0.Replies? { SettleAllAnswers(states[b - 1], events[b - 1].0.mine, i); }
    }
  }

  // ------------------------------------------------------------- which request a caller is given

  /** A finished request that is not in the table is never there again. */
  ghost predicate Gone(s: State, i: nat) {
    && i < |s.asks| && s.asks[i].done
    && (s.asks[i].key in s.table ==> s.table[s.asks[i].key] != i)
  }

  lemma {:induction false} GoneStays(s: State, e: Event, now: int, i: nat)
    requires Inv(s) && Enabled(s, e) && Gone(s, i)
    ensures Gone(Step(s, e, now), i)
    ensures i < |s.asks| && i < |Step(s, e, now).asks| && Step(s, e, now).asks[i].key == s.asks[i].key
  {
    match e
    case Replies(mine) => SettleAllAnswers(s, mine, i); SettleAllShrinks(s, mine);
    case _ =>
  }

  lemma {:induction false} SettleAllShrinks(s: State, mine: seq<nat>)
    requires forall k :: 0 <= k < |mine| ==> mine[k] < |s.asks|
    ensures forall key :: key in SettleAll(s, mine).table ==> key in s.table && SettleAll(s, mine).table[key] == s.table[key]
    decreases |mine|
  {
    if mine != [] { SettleAllShrinks(s, mine[..|mine| - 1]); }
  }

  /** The call takes a late answer of time `t` to request `i` out of the table: it is handed over, or too old. */
  predicate Removes(e: Event, now: int, i: nat, t: int) {
    match e
    case Opens(_) => now >= t + 120
    case Replies(mine) => i in mine
    case Finishes(_, _) => false
  }

  lemma {:induction false} RemovedIsGone(s: State, e: Event, now: int, i: nat, found: Streams, t: int)
    requires Inv(s) && Enabled(s, e) && Kept(s, i, found, t) && Removes(e, now, i, t)
    ensures Gone(Step(s, e, now), i)
    ensures i < |s.asks| && i < |Step(s, e, now).asks| && Step(s, e, now).asks[i].key == s.asks[i].key
  {
    match e
    case Replies(mine) =>
      SettleAllTable(s, mine, s.asks[i].key);
      SettleAllAnswers(s, mine, i);
    case _ =>
  }

  /** From one moment to another nothing takes it out. */
  ghost predicate Unremoved(events: seq<(Event, int)>, a: nat, b: nat, i: nat, t: int)
    requires b <= |events|
  {
    forall j :: a <= j < b ==> !Removes(events[j].0, events[j].1, i, t)
  }

  /** A late answer of time `t` is in the table exactly until something takes it out, and not afterwards. */
  lemma {:induction false} KeptIff(states: seq<State>, events: seq<(Event, int)>, a: nat, b: nat, i: nat, found: Streams, t: int)
    requires IsRun(states, events) && a <= b < |states| && i < |states[a].asks| && Kept(states[a], i, found, t)
    ensures if Unremoved(events, a, b, i, t) then Kept(states[b], i, found, t) else Gone(states[b], i)
    ensures i < |states[b].asks| && states[b].asks[i].key == states[a].asks[i].key
    decreases b
  {
    hide IsRun, Inv, Enabled, Step, Removes, Kept, Gone, Unremoved;
    RunLength(states, events);
    UnremovedStep(events, a, b, i, t);
    if a < b {
      var s, e, now := states[b - 1], events[b - 1].0, events[b - 1].1;
      KeptIff(states, events, a, b - 1, i, found, t);
      RunStep(states, events, b - 1);
      if !Unremoved(events, a, b - 1, i, t) { GoneStays(s, e, now, i); }
      else if Removes(e, now, i, t) { RemovedIsGone(s, e, now, i, found, t); }
      else { KeptGoesOn(s, e, now, i, found, t); }
    }
  }

  lemma {:induction false} RunLength(states: seq<State>, events: seq<(Event, int)>)
    requires IsRun(states, events)
    ensures |states| == |events| + 1
  {
  }

  lemma {:induction false} RunStep(states: seq<State>, events: seq<(Event, int)>, a: nat)
    requires IsRun(states, events) && a < |events|
    ensures Inv(states[a]) && Enabled(states[a], events[a].0) && states[a + 1] == Step(states[a], events[a].0, events[a].1)
  {
    RunKeeps(states, events, a);
  }

  lemma {:induction false} UnremovedStep(events: seq<(Event, int)>, a: nat, b: nat, i: nat, t: int)
    requires a <= b <= |events|
    ensures Unremoved(events, a, b, i, t)
      <==> a == b || (Unremoved(events, a, b - 1, i, t) && !Removes(events[b - 1].0, events[b - 1].1, i, t))
  {
  }

  lemma {:induction false} KeptGoesOn(s: State, e: Event, now: int, i: nat, found: Streams, t: int)
    requires Inv(s) && Enabled(s, e) && Kept(s, i, found, t) && !Removes(e, now, i, t)
    ensures Kept(Step(s, e, now), i, found, t)
    ensures i < |s.asks| && i < |Step(s, e, now).asks| && Step(s, e, now).asks[i].key == s.asks[i].key
  {
    KeptStep(s, e, now, i, found, t);
  }

  /**
   A late answer reaches the next reply that asks in time: a request that a reply went without and that
   answers at `t` is what the next caller within 120 seconds is given, and its reply carries the answer.
   */
  lemma {:induction false} LateAnswerArrives(states: seq<State>, events: seq<(Event, int)>, a: nat, b: nat, c: nat, k: nat)
    requires IsRun(states, events) && a < b < c < |events|
    requires events[a].0.Finishes? && events[a].0.streams.Some? && states[a].asks[events[a].0.ask].outlived
    requires events[b].0 == Opens(states[a].asks[events[a].0.ask].key)
    requires events[b].1 - events[a].1 < LATE_ANSWER_SECONDS
    requires forall j :: a < j < b && events[j].0.Replies? ==> events[a].0.ask !in events[j].0.mine
    requires events[c].0.Replies? && k < |events[c].0.mine|
    requires events[c].0.mine[k] == AskFor(states[b], states[a].asks[events[a].0.ask].key, events[b].1).1
    ensures AskFor(states[b], states[a].asks[events[a].0.ask].key, events[b].1).1 == events[a].0.ask
    ensures Results(states[c], events[c].0.mine)[k] == events[a].0.streams.value
  {
    var i, found, t := events[a].0.ask, events[a].0.streams.value, events[a].1;
    RunKeeps(states, events, a);
    assert Kept(states[a + 1], i, found, t);
    KeptIff(states, events, a + 1, b, i, found, t);
    AnswerStands(states, events, b, c, i);
  }

  /** Some reply before named request `i` as loading. */
  ghost predicate WentWithout(events: seq<(Event, int)>, a: nat, i: nat)
    requires a <= |events|
  {
    exists j :: 0 <= j < a && events[j].0.Replies? && i in events[j].0.mine
  }

  lemma {:induction false} OutlivedIff(states: seq<State>, events: seq<(Event, int)>, a: nat, i: nat)
    requires IsRun(states, events) && a < |states| && i < |states[a].asks| && !states[a].asks[i].done
    ensures states[a].asks[i].outlived <==> WentWithout(events, a, i)
  {
    hide IsRun, Inv, Enabled, Step, WentWithout;
    RunLength(states, events);
    WentWithoutStep(events, a, i);
    if a > 0 {
      var s, e := states[a - 1], events[a - 1].0;
      RunStep(states, events, a - 1);
      if i < |s.asks| {
        StepOutlives(s, e, events[a - 1].1, i);
        OutlivedIff(states, events, a - 1, i);
      } else {
        NewOutlives(s, e, events[a - 1].1, i);
        NotNamedBefore(states, events, a - 1, i);
      }
    } else {
      NoneAtFirst(states, events);
    }
  }

  lemma {:induction false} NoneAtFirst(states: seq<State>, events: seq<(Event, int)>)
    requires IsRun(states, events)
    ensures |states| > 0 && states[0].asks == []
  {
  }

  lemma {:induction false} WentWithoutStep(events: seq<(Event, int)>, a: nat, i: nat)
    requires a <= |events|
    ensures WentWithout(events, a, i)
      <==> a > 0 && (WentWithout(events, a - 1, i) || (events[a - 1].0.Replies? && i in events[a - 1].0.mine))
  {
  }

  lemma {:induction false} StepOutlives(s: State, e: Event, now: int, i: nat)
    requires Inv(s) && Enabled(s, e) && i < |s.asks|
    ensures i < |Step(s, e, now).asks|
    ensures !Step(s, e, now).asks[i].done ==>
      && !s.asks[i].done
      && (Step(s, e, now).asks[i].outlived <==> s.asks[i].outlived || (e.Replies? && i in e.mine))
  {
    if e.Replies? { SettleAllAnswers(s, e.mine, i); }
  }

  lemma {:induction false} NewOutlives(s: State, e: Event, now: int, i: nat)
    requires Enabled(s, e) && |s.asks| <= i < |Step(s, e, now).asks|
    ensures e.Opens? && !Step(s, e, now).asks[i].outlived
  {
  }

  /** No reply names a request before it is made. */
  lemma {:induction false} NotNamedBefore(states: seq<State>, events: seq<(Event, int)>, a: nat, i: nat)
    requires IsRun(states, events) && a < |states| && i >= |states[a].asks|
    ensures !WentWithout(events, a, i)
  {
    WentWithoutStep(events, a, i);
    if a > 0 {
      RequestsStay(states, events, a - 1);
      NotNamedBefore(states, events, a - 1, i);
    }
  }

  lemma {:induction false} RequestsStay(states: seq<State>, events: seq<(Event, int)>, a: nat)
    requires IsRun(states, events) && a < |events|
    ensures |states[a].asks| <= |states[a + 1].asks|
  {
  }

  /**
   Which caller is given the answer of a request that finished at `t`, told by the calls alone: it was late, for
   some reply had gone without it, and no failure; no reply has carried it yet; and nobody has asked for
   anything 120 seconds after it or later, this caller included.
   */
  lemma {:induction false} GivenIff(states: seq<State>, events: seq<(Event, int)>, a: nat, b: nat)
    requires IsRun(states, events) && a < b < |events| && events[a].0.Finishes?
    requires events[b].0 == Opens(states[a].asks[events[a].0.ask].key)
    ensures var i, t := events[a].0.ask, events[a].1;
      AskFor(states[b], states[a].asks[i].key, events[b].1).1 == i
      <==> && WentWithout(events, a, i) && events[a].0.streams.Some?
           && (forall j :: a < j < b && events[j].0.Replies? ==> i !in events[j].0.mine)
           && (forall j :: a < j <= b && events[j].0.Opens? ==> events[j].1 < t + 120)
  {
    var i, t, s := events[a].0.ask, events[a].1, states[a];
    RunKeeps(states, events, a);
    RunKeeps(states, events, b);
    OutlivedIff(states, events, a, i);
    if s.asks[i].outlived && events[a].0.streams.Some? {
      KeptIff(states, events, a + 1, b, i, events[a].0.streams.value, t);
    } else {
      GoneUntil(states, events, a + 1, b, i);
    }
  }

  lemma {:induction false} GoneUntil(states: seq<State>, events: seq<(Event, int)>, a: nat, b: nat, i: nat)
    requires IsRun(states, events) && a <= b < |states| && Gone(states[a], i)
    ensures Gone(states[b], i) && states[b].asks[i].key == states[a].asks[i].key
    decreases b
  {
    if a < b {
      GoneUntil(states, events, a, b - 1, i);
      RunKeeps(states, events, b - 1);
      GoneStays(states[b - 1], events[b - 1].0, events[b - 1].1, i);
    }
  }

  /** And it is handed over once: after that reply the next caller's request is a new one. */
  lemma {:induction false} HandedOverOnce(s: State, mine: seq<nat>, i: nat, found: Streams, t: int, now: int)
    requires Inv(s) && (forall k :: 0 <= k < |mine| ==> mine[k] < |s.asks|) && i in mine && Kept(s, i, found, t)
    ensures AskFor(SettleAll(s, mine), s.asks[i].key, now).1 == |s.asks|
  {
    SettleAllTable(s, mine, s.asks[i].key);
  }
}

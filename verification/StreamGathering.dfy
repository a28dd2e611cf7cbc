/** The same table as it is written: request objects shared between callers and changed in place. */
module StreamGathering {
  import opened Wrappers
  import opened StreamAsks

  class StreamAsk {
    const key: Key
    ghost const number: nat
    var done: bool
    var streams: Option<Streams>
    var finishedAt: Option<int>
    /** A reply went out without this answer. */
    var outlived: bool

    constructor (key: Key, ghost number: nat)
      ensures this.number == number && View() == Ask(key, false, None, None, false)
    {
      this.key, this.number := key, number;
      done, streams, finishedAt, outlived := false, None, None, false;
    }

    ghost function View(): Ask
      reads this
    {
      Ask(key, done, streams, finishedAt, outlived)
    }
  }

  class AskTable {
    var table: map<Key, StreamAsk>
    ghost var issued: seq<StreamAsk>

    ghost predicate Valid()
      reads this
    {
      && (forall i :: 0 <= i < |issued| ==> issued[i].number == i)
      && (forall key :: key in table ==> Issued(table[key]))
    }

    ghost predicate Issued(ask: StreamAsk)
      reads this
    {
      ask.number < |issued| && issued[ask.number] == ask
    }

    ghost function View(): State
      reads this, issued
    {
      State(seq(|issued|, i requires 0 <= i < |issued| reads this, issued => issued[i].View()),
            map key | key in table :: table[key].number)
    }

    constructor ()
      ensures Valid() && View() == InitialState
    {
      table, issued := map[], [];
    }

    method Expire(now: int)
      requires Valid()
      modifies `table
      ensures Valid() && View() == StreamAsks.Expire(old(View()), now)
    {
      table := map key | key in table &&
        !(table[key].finishedAt.Some? && now - table[key].finishedAt.value >= LATE_ANSWER_SECONDS) :: table[key];
    }

    method AskForStreams(key: Key, now: int) returns (ask: StreamAsk)
      requires Valid()
      modifies this
      ensures Valid() && Issued(ask) && old(issued) <= issued
      ensures View() == AskFor(old(View()), key, now).0
      ensures ask.number == AskFor(old(View()), key, now).1
    {
      Expire(now);
      ghost var swept := View();
      assert key in table ==> swept.asks[table[key].number] == table[key].View();
      if key in table {
        var held := table[key];
        if !held.done || held.streams.Some? { return held; }
      }
      ask := StartAsking(key);
    }

    method StartAsking(key: Key) returns (ask: StreamAsk)
      requires Valid()
      modifies this
      ensures Valid() && Issued(ask) && issued == old(issued) + [ask] && ask.number == |old(issued)|
      ensures View().asks == old(View()).asks + [Ask(key, false, None, None, false)]
      ensures View().table == old(View()).table[key := |old(issued)|]
    {
      ask := new StreamAsk(key, |issued|);
      table, issued := table[key := ask], issued + [ask];
    }

    method Leave(ask: StreamAsk)
      requires Valid() && Issued(ask)
      modifies `table
      ensures Valid() && View() == StreamAsks.Leave(old(View()), ask.number)
    {
      if ask.key in table && table[ask.key] == ask { table := table - {ask.key}; }
    }

    /** The section a request's own thread runs once the addon has answered, or failed. */
    method Finished(ask: StreamAsk, streams: Option<Streams>, now: int)
      requires Valid() && Issued(ask)
      modifies `table, ask
      ensures Valid() && View() == Finish(old(View()), ask.number, streams, now)
    {
      ask.streams := streams;
      ask.finishedAt := Some(now);
      ask.done := true;
      if !ask.outlived || streams.None? { Leave(ask); }
    }

    ghost function Numbers(asks: seq<StreamAsk>): (numbers: seq<nat>)
      ensures |numbers| == |asks| && forall k :: 0 <= k < |asks| ==> numbers[k] == asks[k].number
    {
      seq(|asks|, k requires 0 <= k < |asks| => asks[k].number)
    }

    /** One request in the reply: named as loading, or handed over. */
    method SettleOne(ask: StreamAsk) returns (answer: Option<Streams>)
      requires Valid() && Issued(ask)
      modifies `table, ask
      ensures Valid() && View() == Settle(old(View()), ask.number)
      ensures ask.number < |old(View()).asks|
      ensures var was := old(View()).asks[ask.number]; answer == if was.done then Some(AnswerOf(was)) else None
    {
      assert View().asks[ask.number] == ask.View();
      if !ask.done {
        ask.outlived := true;
        assert View().asks == old(View()).asks[ask.number := ask.View()];
        return None;
      }
      if ask.outlived { Leave(ask); }
      return Some(ask.streams.GetOr([]));
    }

    /** The section that makes the reply: what has answered is handed over, the rest named as loading. */
    method Reply(asks: seq<StreamAsk>) returns (results: seq<Streams>, loading: seq<nat>)
      requires Valid() && forall k :: 0 <= k < |asks| ==> Issued(asks[k])
      modifies `table, asks
      ensures Valid()
      ensures forall k :: 0 <= k < |asks| ==> Numbers(asks)[k] < |old(View()).asks|
      ensures View() == SettleAll(old(View()), Numbers(asks))
      ensures results == Results(old(View()), Numbers(asks))
      ensures loading == LoadingAt(old(View()), Numbers(asks))
    {
      results, loading := [], [];
      ghost var before, numbers := View(), Numbers(asks);
      assert forall k :: 0 <= k < |asks| ==> numbers[k] < |before.asks|;
      for k := 0 to |asks|
        invariant Valid()
        invariant View() == SettleAll(before, numbers[..k])
        invariant results == Results(before, numbers[..k])
        invariant loading == LoadingAt(before, numbers[..k])
      {
        OneMore(before, numbers, k);
        var answer := SettleOne(asks[k]);
        if answer.None? { loading := loading + [k]; }
        results := results + [answer.GetOr([])];
      }
      assert numbers[..|asks|] == numbers;
    }
  }

  /** The reply's next request: settled after those before it, and still with the answer it had. */
  lemma {:induction false} OneMore(s: State, mine: seq<nat>, k: nat)
    requires k < |mine| && forall j :: 0 <= j < |mine| ==> mine[j] < |s.asks|
    ensures SettleAll(s, mine[..k + 1]) == Settle(SettleAll(s, mine[..k]), mine[k])
    ensures Results(s, mine[..k + 1]) == Results(s, mine[..k]) + [AnswerOf(s.asks[mine[k]])]
    ensures LoadingAt(s, mine[..k + 1]) == LoadingAt(s, mine[..k]) + if s.asks[mine[k]].done then [] else [k]
    ensures AnswerOf(SettleAll(s, mine[..k]).asks[mine[k]]) == AnswerOf(s.asks[mine[k]])
    ensures SettleAll(s, mine[..k]).asks[mine[k]].done == s.asks[mine[k]].done
  {
    assert mine[..k + 1][..k] == mine[..k];
    SettleAllAnswers(s, mine[..k], mine[k]);
  }

  // ------------------------------------------------------------- the listing

  /** A stream as the listing carries it: what it is, and the position of the addon it came from. */
  datatype Listed = Listed(identity: string, addon: nat)

  /** Stream `q` of addon `p` is the first in addon order that is what it is. */
  ghost predicate First(answers: seq<Streams>, p: nat, q: nat) {
    && p < |answers| && q < |answers[p]|
    && (forall i, j :: 0 <= i < p && 0 <= j < |answers[i]| ==> answers[i][j] != answers[p][q])
    && (forall j :: 0 <= j < q ==> answers[p][j] != answers[p][q])
  }

  /** `Before` in addon order, then in the order the addon answered. */
  predicate Earlier(p: nat, q: nat, p': nat, q': nat) { p < p' || (p == p' && q < q') }

  /** Where each listed stream comes from: the first of its kind, in order. */
  ghost predicate Sourced(answers: seq<Streams>, found: seq<Listed>, at: seq<(nat, nat)>) {
    && |at| == |found|
    && (forall i :: 0 <= i < |at| ==>
          First(answers, at[i].0, at[i].1) && found[i] == Listed(answers[at[i].0][at[i].1], at[i].0))
    && (forall i, j :: 0 <= i < j < |at| ==> Earlier(at[i].0, at[i].1, at[j].0, at[j].1))
  }

  /** `id` is among the streams before stream `q` of addon `p`. */
  ghost predicate SeenBefore(answers: seq<Streams>, id: string, p: nat, q: nat) {
    exists a: nat, b: nat :: a < |answers| && b < |answers[a]| && Earlier(a, b, p, q) && answers[a][b] == id
  }

  /** The listing so far: the first of each kind before stream `q` of addon `p`, and nothing else. */
  ghost predicate ListedTo(answers: seq<Streams>, found: seq<Listed>, at: seq<(nat, nat)>, seen: set<string>, p: nat, q: nat) {
    && Sourced(answers, found, at)
    && (forall i :: 0 <= i < |at| ==> Earlier(at[i].0, at[i].1, p, q))
    && (forall id :: id in seen <==> SeenBefore(answers, id, p, q))
    && (forall id :: id in seen ==> Has(found, id))
    && (forall a: nat, b: nat :: First(answers, a, b) && Earlier(a, b, p, q) ==> (a, b) in at)
  }

  lemma {:induction false} SeenNext(answers: seq<Streams>, p: nat, q: nat, x: string)
    requires p < |answers| && q < |answers[p]|
    ensures SeenBefore(answers, x, p, q + 1) <==> SeenBefore(answers, x, p, q) || x == answers[p][q]
  {
    if x == answers[p][q] { assert Earlier(p, q, p, q + 1); }
    if SeenBefore(answers, x, p, q) {
      var a: nat, b: nat :| a < |answers| && b < |answers[a]| && Earlier(a, b, p, q) && answers[a][b] == x;
      assert Earlier(a, b, p, q + 1);
    }
  }

  lemma {:induction false} FirstIsUnseen(answers: seq<Streams>, p: nat, q: nat)
    requires p < |answers| && q < |answers[p]|
    ensures First(answers, p, q) <==> !SeenBefore(answers, answers[p][q], p, q)
  {
    if SeenBefore(answers, answers[p][q], p, q) {
      var a: nat, b: nat :| a < |answers| && b < |answers[a]| && Earlier(a, b, p, q) && answers[a][b] == answers[p][q];
      assert !First(answers, p, q);
    } else {
      forall i, j | 0 <= i < p && 0 <= j < |answers[i]| ensures answers[i][j] != answers[p][q] {
        assert Earlier(i, j, p, q);
      }
      forall j | 0 <= j < q ensures answers[p][j] != answers[p][q] { assert Earlier(p, j, p, q); }
    }
  }

  lemma {:induction false} SourcedNext(answers: seq<Streams>, found: seq<Listed>, at: seq<(nat, nat)>, p: nat, q: nat)
    requires Sourced(answers, found, at) && First(answers, p, q)
    requires forall i :: 0 <= i < |at| ==> Earlier(at[i].0, at[i].1, p, q)
    ensures Sourced(answers, found + [Listed(answers[p][q], p)], at + [(p, q)])
  {
  }

  lemma {:induction false} HasNext(found: seq<Listed>, more: Listed, id: string)
    requires Has(found, id) || more.identity == id
    ensures Has(found + [more], id)
  {
    if Has(found, id) {
      var i :| 0 <= i < |found| && found[i].identity == id;
      assert (found + [more])[i].identity == id;
    } else {
      assert (found + [more])[|found|].identity == id;
    }
  }

  lemma {:induction false} ListsNext(answers: seq<Streams>, found: seq<Listed>, at: seq<(nat, nat)>, seen: set<string>,
                                     p: nat, q: nat)
    requires p < |answers| && q < |answers[p]| && ListedTo(answers, found, at, seen, p, q)
    ensures answers[p][q] in seen ==> ListedTo(answers, found, at, seen, p, q + 1)
    ensures answers[p][q] !in seen ==>
      ListedTo(answers, found + [Listed(answers[p][q], p)], at + [(p, q)], seen + {answers[p][q]}, p, q + 1)
  {
    var id := answers[p][q];
    FirstIsUnseen(answers, p, q);
    forall x ensures SeenBefore(answers, x, p, q + 1) <==> SeenBefore(answers, x, p, q) || x == id {
      SeenNext(answers, p, q, x);
    }
    forall a: nat, b: nat | First(answers, a, b) && Earlier(a, b, p, q + 1)
      ensures Earlier(a, b, p, q) || (a, b) == (p, q)
    {
    }
    if id !in seen {
      SourcedNext(answers, found, at, p, q);
      forall x | x in seen + {id} ensures Has(found + [Listed(id, p)], x) { HasNext(found, Listed(id, p), x); }
    }
  }

  /** What is listed to the end of one addon is what is listed to the beginning of the next. */
  lemma {:induction false} ListsNextAddon(answers: seq<Streams>, found: seq<Listed>, at: seq<(nat, nat)>,
                                          seen: set<string>, p: nat)
    requires p < |answers| && ListedTo(answers, found, at, seen, p, |answers[p]|)
    ensures ListedTo(answers, found, at, seen, p + 1, 0)
  {
    forall x ensures SeenBefore(answers, x, p + 1, 0) <==> SeenBefore(answers, x, p, |answers[p]|) {
      if SeenBefore(answers, x, p, |answers[p]|) {
        var a: nat, b: nat :| a < |answers| && b < |answers[a]| && Earlier(a, b, p, |answers[p]|) && answers[a][b] == x;
        assert Earlier(a, b, p + 1, 0);
      }
      if SeenBefore(answers, x, p + 1, 0) {
        var a: nat, b: nat :| a < |answers| && b < |answers[a]| && Earlier(a, b, p + 1, 0) && answers[a][b] == x;
        assert Earlier(a, b, p, |answers[p]|);
      }
    }
  }

  ghost predicate Has(found: seq<Listed>, id: string) {
    exists i :: 0 <= i < |found| && found[i].identity == id
  }

  /** `stream_listing`: every stream once, in addon order, under the first addon that has it. */
  method Listing(answers: seq<Streams>) returns (found: seq<Listed>, ghost at: seq<(nat, nat)>)
    ensures Sourced(answers, found, at)
    ensures forall p: nat, q: nat :: First(answers, p, q) ==> (p, q) in at
    ensures forall p: nat, q: nat :: p < |answers| && q < |answers[p]| ==> Has(found, answers[p][q])
  {
    found, at := [], [];
    var seen: set<string> := {};
    for p := 0 to |answers|
      invariant ListedTo(answers, found, at, seen, p, 0)
    {
      for q := 0 to |answers[p]|
        invariant ListedTo(answers, found, at, seen, p, q)
      {
        ListsNext(answers, found, at, seen, p, q);
        var identity := answers[p][q];
        if identity !in seen {
          seen, found, at := seen + {identity}, found + [Listed(identity, p)], at + [(p, q)];
        }
      }
      ListsNextAddon(answers, found, at, seen, p);
    }
    forall p: nat, q: nat | p < |answers| && q < |answers[p]|
      ensures Has(found, answers[p][q])
    {
      assert Earlier(p, q, |answers|, 0);
      assert SeenBefore(answers, answers[p][q], |answers|, 0);
      assert answers[p][q] in seen;
    }
    assert forall p: nat, q: nat :: First(answers, p, q) ==> Earlier(p, q, |answers|, 0);
  }
}

/**
 The fan-out of media/stremio/adapter.py: a fixed number of workers taking jobs off one counter, whose
 results must make the screen the serial loop would have made.
 */
module FanOut {
  import opened Wrappers

  /** What asking one catalogue came to. */
  datatype Outcome = Items(items: seq<string>) | Raised

  /** Where a worker is: about to take a job, asking for it, past writing its result, or done. */
  datatype Worker = Taking | Asking(job: nat) | Wrote(job: nat) | Retired

  datatype State = State(next: nat, results: seq<Option<Outcome>>, answered: seq<bool>, workers: seq<Worker>)

  /** `min(width, len(jobs))` workers and nothing done. */
  function Start(jobs: nat, width: nat): State {
    State(0, seq(jobs, _ => None), seq(jobs, _ => false), seq(if width < jobs then width else jobs, _ => Taking))
  }

  /** One step of worker `w`; `ask` says what each job comes to, whenever and by whomever it is asked. */
  function Step(s: State, w: nat, ask: nat -> Outcome): State
    requires w < |s.workers| && |s.results| == |s.answered|
  {
    match s.workers[w]
    case Taking =>
      s.(next := s.next + 1,
         workers := s.workers[w := if s.next >= |s.results| then Retired else Asking(s.next)])
    case Asking(i) =>
      if i >= |s.results| then s
      else s.(results := s.results[i := Some(ask(i))], workers := s.workers[w := Wrote(i)])
    case Wrote(i) =>
      if i >= |s.results| then s
      else s.(answered := s.answered[i := true], workers := s.workers[w := Taking])
    case Retired => s
  }

  /** Any schedule at all: the worker that moves next, moving when it can. */
  ghost predicate IsRun(states: seq<State>, schedule: seq<nat>, jobs: nat, width: nat, ask: nat -> Outcome) {
    && |states| == |schedule| + 1 && states[0] == Start(jobs, width)
    && forall k :: 0 <= k < |schedule| ==>
         && |states[k].results| == |states[k].answered| == jobs
         && schedule[k] < |states[k].workers| && states[k].workers[schedule[k]] != Retired
         && states[k + 1] == Step(states[k], schedule[k], ask)
  }

  // -------------------------------------------------------------- invariants

  predicate Has(worker: Worker, i: nat) { worker == Asking(i) || worker == Wrote(i) }

  ghost predicate Held(s: State, i: nat) { exists w :: 0 <= w < |s.workers| && Has(s.workers[w], i) }

  /** A worker has a job that was taken, is its alone to answer, and whose slot it has written or not. */
  predicate WorkerOk(s: State, worker: Worker)
    requires |s.results| == |s.answered|
  {
    match worker
    case Taking => true
    case Asking(i) => i < s.next && i < |s.results| && s.results[i].None? && !s.answered[i]
    case Wrote(i) => i < s.next && i < |s.results| && s.results[i].Some? && !s.answered[i]
    case Retired => s.next >= |s.results|
  }

  /** Each job is with nobody yet, with one worker, or answered; its slot holds nothing but its own outcome. */
  ghost predicate Inv(s: State, jobs: nat, ask: nat -> Outcome) {
    && |s.results| == |s.answered| == jobs
    && (forall w :: 0 <= w < |s.workers| ==> WorkerOk(s, s.workers[w]))
    && (forall v, w, i: nat :: 0 <= v < w < |s.workers| && Has(s.workers[v], i) ==> !Has(s.workers[w], i))
    && (forall i :: 0 <= i < jobs && s.results[i].Some? ==> i < s.next && s.results[i] == Some(ask(i)))
    && (forall i :: 0 <= i < jobs && s.answered[i] ==> s.results[i].Some?)
    && (forall i :: 0 <= i < jobs && i < s.next && !s.answered[i] ==> Held(s, i))
  }

  /** A worker that moved has nobody else's job, and a job in progress still has its worker. */
  lemma {:induction false} HeldAfter(s: State, w: nat, jobs: nat, ask: nat -> Outcome, i: nat)
    requires Inv(s, jobs, ask) && w < |s.workers|
    requires i < jobs && i < Step(s, w, ask).next && !Step(s, w, ask).answered[i]
    ensures Held(Step(s, w, ask), i)
  {
    var t := Step(s, w, ask);
    if i < s.next {
      assert Held(s, i);
      var v :| 0 <= v < |s.workers| && Has(s.workers[v], i);
      assert Has(t.workers[v], i);
    } else {
      assert Has(t.workers[w], i);
    }
  }

  lemma {:induction false} WorkersAfter(s: State, w: nat, jobs: nat, ask: nat -> Outcome)
    requires Inv(s, jobs, ask) && w < |s.workers|
    ensures var t := Step(s, w, ask);
      && |t.results| == |t.answered| == jobs
      && (forall v :: 0 <= v < |t.workers| ==> WorkerOk(t, t.workers[v]))
      && (forall u, v, i: nat :: 0 <= u < v < |t.workers| && Has(t.workers[u], i) ==> !Has(t.workers[v], i))
  {
    var t := Step(s, w, ask);
    forall v | 0 <= v < |t.workers| ensures WorkerOk(t, t.workers[v]) {
      assert WorkerOk(s, s.workers[v]) && WorkerOk(s, s.workers[w]);
    }
    forall u, v, i: nat | 0 <= u < v < |t.workers| && Has(t.workers[u], i) ensures !Has(t.workers[v], i) {
      assert WorkerOk(s, s.workers[u]) && WorkerOk(s, s.workers[v]);
    }
  }

  lemma {:induction false} StepKeeps(s: State, w: nat, jobs: nat, ask: nat -> Outcome)
    requires Inv(s, jobs, ask) && w < |s.workers|
    ensures Inv(Step(s, w, ask), jobs, ask)
  {
    var t := Step(s, w, ask);
    assert WorkerOk(s, s.workers[w]);
    WorkersAfter(s, w, jobs, ask);
    forall i | 0 <= i < jobs && i < t.next && !t.answered[i] ensures Held(t, i) { HeldAfter(s, w, jobs, ask, i); }
  }

  lemma {:induction false} RunKeeps(states: seq<State>, schedule: seq<nat>, jobs: nat, width: nat, ask: nat -> Outcome, k: nat)
    requires IsRun(states, schedule, jobs, width, ask) && k < |states|
    ensures Inv(states[k], jobs, ask) && |states[k].workers| == |states[0].workers|
  {
    if k > 0 {
      RunKeeps(states, schedule, jobs, width, ask, k - 1);
      StepKeeps(states[k - 1], schedule[k - 1], jobs, ask);
    }
  }

  /**
   A job is taken once: nobody else has it while one worker does, nobody has it once it is answered, and
   only the worker that has it writes its slot or marks it answered.
   */
  lemma {:induction false} TakenOnce(states: seq<State>, schedule: seq<nat>, jobs: nat, width: nat, ask: nat -> Outcome,
                                     k: nat, v: nat, w: nat, i: nat)
    requires IsRun(states, schedule, jobs, width, ask) && k < |schedule|
    requires v < |states[k].workers| && w < |states[k].workers| && i < jobs
    ensures Has(states[k].workers[v], i) && Has(states[k].workers[w], i) ==> v == w
    ensures Has(states[k].workers[v], i) ==> !states[k].answered[i]
    ensures |states[k + 1].results| == |states[k + 1].answered| == jobs
    ensures states[k + 1].results[i] != states[k].results[i] || states[k + 1].answered[i] != states[k].answered[i]
      ==> Has(states[k].workers[schedule[k]], i)
    ensures states[k].answered[i] ==> states[k + 1].answered[i] && states[k + 1].results[i] == states[k].results[i]
  {
    RunKeeps(states, schedule, jobs, width, ask, k);
    RunKeeps(states, schedule, jobs, width, ask, k + 1);
    assert WorkerOk(states[k], states[k].workers[v]);
    assert WorkerOk(states[k], states[k].workers[schedule[k]]);
  }

  ghost predicate AllRetired(s: State) { forall w :: 0 <= w < |s.workers| ==> s.workers[w] == Retired }

  /** When every worker is done, every job has been answered, each with its own outcome. */
  lemma {:induction false} FinishedIsComplete(states: seq<State>, schedule: seq<nat>, jobs: nat, width: nat,
                                              ask: nat -> Outcome, k: nat)
    requires IsRun(states, schedule, jobs, width, ask) && k < |states| && AllRetired(states[k]) && width > 0
    ensures states[k].results == seq(jobs, i requires i >= 0 => Some(ask(i)))
    ensures states[k].answered == seq(jobs, _ => true)
  {
    RunKeeps(states, schedule, jobs, width, ask, k);
    var s := states[k];
    if jobs > 0 {
      assert WorkerOk(s, s.workers[0]);
      forall i | 0 <= i < jobs ensures s.answered[i] {
        assert !Held(s, i);
      }
    }
  }

  // ------------------------------------------------------------- termination

  function Weight(worker: Worker): nat {
    match worker case Asking(_) => 3 case Wrote(_) => 2 case Taking => 1 case Retired => 0
  }

  function Weights(workers: seq<Worker>): nat {
    if workers == [] then 0 else Weights(workers[..|workers| - 1]) + Weight(workers[|workers| - 1])
  }

  function Left(s: State): nat {
    Weights(s.workers) + 3 * if s.next < |s.results| then |s.results| - s.next else 0
  }

  lemma {:induction false} WeightsUpdate(workers: seq<Worker>, w: nat, worker: Worker)
    requires w < |workers|
    ensures Weights(workers[w := worker]) + Weight(workers[w]) == Weights(workers) + Weight(worker)
  {
    var last := |workers| - 1;
    if w == last {
      assert workers[w := worker][..last] == workers[..last];
    } else {
      WeightsUpdate(workers[..last], w, worker);
      assert workers[w := worker][..last] == workers[..last][w := worker];
    }
  }

  lemma {:induction false} FreshWeights(n: nat)
    ensures Weights(seq(n, _ => Taking)) == n
  {
    if n > 0 {
      FreshWeights(n - 1);
      assert seq(n, _ => Taking)[..n - 1] == seq(n - 1, _ => Taking);
    }
  }

  /** No schedule runs on: every step uses up some of three turns a job and one a worker. */
  lemma {:induction false} SchedulesEnd(states: seq<State>, schedule: seq<nat>, jobs: nat, width: nat, ask: nat -> Outcome,
                                        k: nat)
    requires IsRun(states, schedule, jobs, width, ask) && k < |states|
    ensures k + Left(states[k]) == 3 * jobs + |states[0].workers|
  {
    if k == 0 {
      FreshWeights(|states[0].workers|);
      assert states[0].workers == seq(|states[0].workers|, _ => Taking);
    } else {
      SchedulesEnd(states, schedule, jobs, width, ask, k - 1);
      RunKeeps(states, schedule, jobs, width, ask, k - 1);
      var s, w := states[k - 1], schedule[k - 1];
      assert WorkerOk(s, s.workers[w]);
      WeightsUpdate(s.workers, w, states[k].workers[w]);
    }
  }
}

/** The home and search screens of media/stremio/adapter.py, made from what a fan-out came to. */
module HomeScreen {
  import opened Wrappers
  import opened FanOut

  const HOME_CATALOGS_PER_ADDON: nat := 4
  const HOME_ITEMS_PER_CATALOG: nat := 20
  const SEARCH_RESULTS_PER_CATALOG: nat := 20

  datatype Catalog = Catalog(kind: string, id: string, name: string, needsExtra: bool)

  datatype Addon = Addon(id: string, name: string, catalogs: seq<Catalog>)

  datatype Job = Job(addon: Addon, catalog: Catalog)

  datatype Row = Row(addonId: string, addonName: string, catalogId: string, kind: string, name: string, items: seq<string>)

  predicate Eligible(catalog: Catalog, wanted: set<string>) {
    (wanted == {} || catalog.kind in wanted) && !catalog.needsExtra
  }

  // ---------------------------------------------------- one catalogue at a time

  function RowOf(job: Job, items: seq<string>): Row {
    Row(job.addon.id, job.addon.name, job.catalog.id, job.catalog.kind,
        if job.catalog.name != "" then job.catalog.name else job.addon.name + " " + job.catalog.kind,
        if |items| > HOME_ITEMS_PER_CATALOG then items[..HOME_ITEMS_PER_CATALOG] else items)
  }

  /** What the serial loop shows of one catalogue. */
  function Shown(job: Job, outcome: Outcome): seq<Row> {
    match outcome
    case Items(items) => if items == [] then [] else [RowOf(job, items)]
    case Raised => []
  }

  /** The serial loop over one addon's catalogues, `room` of them still to be asked. */
  function SerialAddon(addon: Addon, catalogs: seq<Catalog>, wanted: set<string>, room: nat, ask: Job -> Outcome): seq<Row> {
    if catalogs == [] || room == 0 then []
    else if !Eligible(catalogs[0], wanted) then SerialAddon(addon, catalogs[1..], wanted, room, ask)
    else
      Shown(Job(addon, catalogs[0]), ask(Job(addon, catalogs[0])))
      + SerialAddon(addon, catalogs[1..], wanted, room - 1, ask)
  }

  /** The home screen as asking every catalogue of every addon in turn would make it. */
  function SerialHome(addons: seq<Addon>, failed: set<string>, wanted: set<string>, ask: Job -> Outcome): seq<Row> {
    if addons == [] then []
    else
      (if addons[0].id in failed then []
       else SerialAddon(addons[0], addons[0].catalogs, wanted, HOME_CATALOGS_PER_ADDON, ask))
      + SerialHome(addons[1..], failed, wanted, ask)
  }

  // ------------------------------------------------------------ the work list

  function AddonJobs(addon: Addon, catalogs: seq<Catalog>, wanted: set<string>, room: nat): seq<Job> {
    if catalogs == [] || room == 0 then []
    else if !Eligible(catalogs[0], wanted) then AddonJobs(addon, catalogs[1..], wanted, room)
    else [Job(addon, catalogs[0])] + AddonJobs(addon, catalogs[1..], wanted, room - 1)
  }

  function AllJobs(addons: seq<Addon>, failed: set<string>, wanted: set<string>): seq<Job> {
    if addons == [] then []
    else
      (if addons[0].id in failed then []
       else AddonJobs(addons[0], addons[0].catalogs, wanted, HOME_CATALOGS_PER_ADDON))
      + AllJobs(addons[1..], failed, wanted)
  }

  lemma {:induction false} MoveOver(done: seq<Job>, job: Job, rest: seq<Job>)
    ensures done + ([job] + rest) == (done + [job]) + rest
  {
  }

  /** The first few catalogues of one addon a home row is made of. */
  method TakeJobs(addon: Addon, wanted: set<string>) returns (jobs: seq<Job>)
    ensures jobs == AddonJobs(addon, addon.catalogs, wanted, HOME_CATALOGS_PER_ADDON)
  {
    jobs := [];
    for c := 0 to |addon.catalogs|
      invariant |jobs| <= HOME_CATALOGS_PER_ADDON
      invariant jobs + AddonJobs(addon, addon.catalogs[c..], wanted, HOME_CATALOGS_PER_ADDON - |jobs|)
             == AddonJobs(addon, addon.catalogs, wanted, HOME_CATALOGS_PER_ADDON)
    {
      if |jobs| >= HOME_CATALOGS_PER_ADDON { break; }
      var catalog := addon.catalogs[c];
      assert addon.catalogs[c..][1..] == addon.catalogs[c + 1..];
      if Eligible(catalog, wanted) {
        MoveOver(jobs, Job(addon, catalog),
                 AddonJobs(addon, addon.catalogs[c + 1..], wanted, HOME_CATALOGS_PER_ADDON - |jobs| - 1));
        jobs := jobs + [Job(addon, catalog)];
      }
    }
  }

  /** The work list of `home`, in the order the rows will appear. */
  method WorkList(addons: seq<Addon>, failed: set<string>, wanted: set<string>) returns (jobs: seq<Job>)
    ensures jobs == AllJobs(addons, failed, wanted)
  {
    jobs := [];
    for a := 0 to |addons|
      invariant jobs + AllJobs(addons[a..], failed, wanted) == AllJobs(addons, failed, wanted)
    {
      assert addons[a..][1..] == addons[a + 1..];
      if addons[a].id !in failed {
        var more := TakeJobs(addons[a], wanted);
        assert jobs + (more + AllJobs(addons[a + 1..], failed, wanted))
            == (jobs + more) + AllJobs(addons[a + 1..], failed, wanted);
        jobs := jobs + more;
      } else {
        assert AllJobs(addons[a..], failed, wanted) == AllJobs(addons[a + 1..], failed, wanted);
      }
    }
  }

  // ------------------------------------------------------- what is asked, by place

  /** Catalogue `c` of the addon may be a row: it is of a kind that is wanted, if any are, and needs nothing more. */
  predicate MayBeARow(addon: Addon, c: nat, wanted: set<string>)
    requires c < |addon.catalogs|
  {
    (|wanted| == 0 || addon.catalogs[c].kind in wanted) && addon.catalogs[c].needsExtra == false
  }

  /** How many of the first `c` may be. */
  function RowsBefore(addon: Addon, c: nat, wanted: set<string>): nat
    requires c <= |addon.catalogs|
  {
    if c == 0 then 0 else RowsBefore(addon, c - 1, wanted) + if MayBeARow(addon, c - 1, wanted) then 1 else 0
  }

  /** It is among the first four of its addon that may be a row. */
  predicate AmongFirstFour(addon: Addon, c: nat, wanted: set<string>)
    requires c < |addon.catalogs|
  {
    MayBeARow(addon, c, wanted) && RowsBefore(addon, c, wanted) < 4
  }

  /** The jobs are those of the catalogues at `places`, in rising order. */
  ghost predicate OfPlaces(addon: Addon, jobs: seq<Job>, places: seq<nat>) {
    && |places| == |jobs|
    && (forall k :: 0 <= k < |jobs| ==>
          places[k] < |addon.catalogs| && jobs[k] == Job(addon, addon.catalogs[places[k]]))
    && (forall j, k :: 0 <= j < k < |jobs| ==> places[j] < places[k])
  }

  lemma {:induction false} AddonPlaces(addon: Addon, c: nat, wanted: set<string>, room: nat) returns (places: seq<nat>)
    requires c <= |addon.catalogs| && room == if RowsBefore(addon, c, wanted) < 4 then 4 - RowsBefore(addon, c, wanted) else 0
    ensures OfPlaces(addon, AddonJobs(addon, addon.catalogs[c..], wanted, room), places)
    ensures forall p :: p in places <==> c <= p < |addon.catalogs| && AmongFirstFour(addon, p, wanted)
    decreases |addon.catalogs| - c
  {
    if c == |addon.catalogs| {
      places := [];
    } else if room == 0 {
      places := [];
      forall p | c <= p < |addon.catalogs| ensures !AmongFirstFour(addon, p, wanted) { RowsGrow(addon, c, p, wanted); }
    } else {
      var rest := addon.catalogs[c..];
      assert rest[1..] == addon.catalogs[c + 1..] && rest[0] == addon.catalogs[c];
      assert Eligible(rest[0], wanted) <==> MayBeARow(addon, c, wanted);
      if MayBeARow(addon, c, wanted) {
        var more := AddonPlaces(addon, c + 1, wanted, room - 1);
        assert forall k :: 0 <= k < |more| ==> more[k] in more;
        places := [c] + more;
      } else {
        places := AddonPlaces(addon, c + 1, wanted, room);
      }
    }
  }

  lemma {:induction false} RowsGrow(addon: Addon, c: nat, p: nat, wanted: set<string>)
    requires c <= p <= |addon.catalogs|
    ensures RowsBefore(addon, c, wanted) <= RowsBefore(addon, p, wanted)
    decreases p
  {
    if c < p { RowsGrow(addon, c, p - 1, wanted); }
  }

  /** Each addon that has not failed lately is asked, in order, for its first four catalogues that may be a row. */
  lemma {:induction false} JobsAreThoseOf(addons: seq<Addon>, failed: set<string>, wanted: set<string>, a: nat)
    returns (before: seq<Job>, own: seq<Job>, after: seq<Job>, places: seq<nat>)
    requires a < |addons|
    ensures AllJobs(addons, failed, wanted) == before + own + after
    ensures before == AllJobs(addons[..a], failed, wanted) && after == AllJobs(addons[a + 1..], failed, wanted)
    ensures OfPlaces(addons[a], own, places)
    ensures forall p :: p in places <==>
      addons[a].id !in failed && 0 <= p < |addons[a].catalogs| && AmongFirstFour(addons[a], p, wanted)
  {
    JobsAppend(addons[..a], addons[a..], failed, wanted);
    assert addons == addons[..a] + addons[a..] && addons[a..][1..] == addons[a + 1..];
    before, after := AllJobs(addons[..a], failed, wanted), AllJobs(addons[a + 1..], failed, wanted);
    if addons[a].id in failed {
      own, places := [], [];
    } else {
      own := AddonJobs(addons[a], addons[a].catalogs, wanted, HOME_CATALOGS_PER_ADDON);
      assert addons[a].catalogs[0..] == addons[a].catalogs;
      places := AddonPlaces(addons[a], 0, wanted, 4);
    }
    assert before + (own + after) == before + own + after;
  }

  lemma {:induction false} JobsAppend(a: seq<Addon>, b: seq<Addon>, failed: set<string>, wanted: set<string>)
    ensures AllJobs(a + b, failed, wanted) == AllJobs(a, failed, wanted) + AllJobs(b, failed, wanted)
  {
    if a == [] {
      assert a + b == b;
    } else {
      assert (a + b)[0] == a[0] && (a + b)[1..] == a[1..] + b;
      JobsAppend(a[1..], b, failed, wanted);
    }
  }

  /**
   The row of a catalogue, which there is exactly if it answered with anything: whose it is, under its own name
   or else its addon's and its kind, and of what it answered the first twenty.
   */
  lemma {:induction false} RowSays(job: Job, outcome: Outcome)
    ensures |Shown(job, outcome)| == if outcome.Items? && outcome.items != [] then 1 else 0
    ensures outcome.Items? && outcome.items != [] ==>
      var row := Shown(job, outcome)[0];
      && row.addonId == job.addon.id && row.addonName == job.addon.name
      && row.catalogId == job.catalog.id && row.kind == job.catalog.kind
      && (job.catalog.name != "" ==> row.name == job.catalog.name)
      && (job.catalog.name == "" ==> row.name == job.addon.name + " " + job.catalog.kind)
      && row.items <= outcome.items && row.items != []
      && (|row.items| == 20 || (|row.items| < 20 && row.items == outcome.items))
  {
  }

  // --------------------------------------------------------------- the screen

  function RowFor(job: Job, result: Option<Outcome>): seq<Row> {
    match result case Some(outcome) => Shown(job, outcome) case None => []
  }

  function Rows(jobs: seq<Job>, results: seq<Option<Outcome>>): seq<Row>
    requires |jobs| == |results|
  {
    if jobs == [] then []
    else
      var last := |jobs| - 1;
      Rows(jobs[..last], results[..last]) + RowFor(jobs[last], results[last])
  }

  /** The addons that had not answered by the copy, which are not asked again for a while. */
  function Penalised(jobs: seq<Job>, answered: seq<bool>): set<string>
    requires |jobs| == |answered|
  {
    if jobs == [] then {}
    else
      var last := |jobs| - 1;
      Penalised(jobs[..last], answered[..last]) + if answered[last] then {} else {jobs[last].addon.id}
  }

  lemma {:induction false} PenalisedAre(jobs: seq<Job>, answered: seq<bool>, id: string)
    requires |jobs| == |answered|
    ensures id in Penalised(jobs, answered) <==> exists i :: 0 <= i < |jobs| && !answered[i] && jobs[i].addon.id == id
  {
    if jobs != [] {
      var last := |jobs| - 1;
      PenalisedAre(jobs[..last], answered[..last], id);
      if i :| 0 <= i < last && !answered[i] && jobs[i].addon.id == id {
        assert !answered[..last][i] && jobs[..last][i].addon.id == id;
      }
    }
  }

  /** The rows `home` makes of the copied results, and whom it penalises. */
  method Screen(jobs: seq<Job>, results: seq<Option<Outcome>>, answered: seq<bool>)
    returns (rows: seq<Row>, penalised: set<string>)
    requires |jobs| == |results| == |answered|
    ensures rows == Rows(jobs, results)
    ensures penalised == Penalised(jobs, answered)
  {
    penalised := {};
    for i := 0 to |jobs|
      invariant penalised == Penalised(jobs[..i], answered[..i])
    {
      assert jobs[..i + 1][..i] == jobs[..i] && answered[..i + 1][..i] == answered[..i];
      if !answered[i] { penalised := penalised + {jobs[i].addon.id}; }
    }
    assert jobs[..|jobs|] == jobs && answered[..|jobs|] == answered;
    rows := [];
    for i := 0 to |jobs|
      invariant rows == Rows(jobs[..i], results[..i])
    {
      assert jobs[..i + 1][..i] == jobs[..i] && results[..i + 1][..i] == results[..i];
      if results[i].Some? && results[i].value.Items? && results[i].value.items != [] {
        rows := rows + [RowOf(jobs[i], results[i].value.items)];
      }
    }
    assert results[..|jobs|] == results;
  }

  // ------------------------------------------------------------------ results

  function Asked(jobs: seq<Job>, ask: Job -> Outcome): seq<Option<Outcome>> {
    seq(|jobs|, i requires 0 <= i < |jobs| => Some(ask(jobs[i])))
  }

  lemma {:induction false} InitOfConcat<T>(a: seq<T>, b: seq<T>)
    requires |b| > 0
    ensures |a + b| > 0 && (a + b)[..|a + b| - 1] == a + b[..|b| - 1] && (a + b)[|a + b| - 1] == b[|b| - 1]
  {
  }

  lemma {:induction false} RowsAppend(a: seq<Job>, b: seq<Job>, ra: seq<Option<Outcome>>, rb: seq<Option<Outcome>>)
    requires |a| == |ra| && |b| == |rb|
    ensures Rows(a + b, ra + rb) == Rows(a, ra) + Rows(b, rb)
  {
    if b == [] {
      assert a + b == a && ra + rb == ra;
    } else {
      var last := |b| - 1;
      RowsAppend(a, b[..last], ra, rb[..last]);
      InitOfConcat(a, b);
      InitOfConcat(ra, rb);
    }
  }

  lemma {:induction false} AskedAppend(a: seq<Job>, b: seq<Job>, ask: Job -> Outcome)
    ensures Asked(a + b, ask) == Asked(a, ask) + Asked(b, ask)
  {
  }

  lemma {:induction false} RowsSplit(a: seq<Job>, b: seq<Job>, ask: Job -> Outcome)
    ensures Rows(a + b, Asked(a + b, ask)) == Rows(a, Asked(a, ask)) + Rows(b, Asked(b, ask))
  {
    AskedAppend(a, b, ask);
    RowsAppend(a, b, Asked(a, ask), Asked(b, ask));
  }

  lemma {:induction false} OneRow(job: Job, ask: Job -> Outcome)
    ensures Rows([job], Asked([job], ask)) == Shown(job, ask(job))
  {
    assert Rows([job][..0], Asked([job], ask)[..0]) == [];
  }

  lemma {:induction false} AddonRows(addon: Addon, catalogs: seq<Catalog>, wanted: set<string>, room: nat, ask: Job -> Outcome)
    ensures var jobs := AddonJobs(addon, catalogs, wanted, room);
      Rows(jobs, Asked(jobs, ask)) == SerialAddon(addon, catalogs, wanted, room, ask)
    decreases |catalogs|
  {
    if catalogs != [] && room > 0 {
      if !Eligible(catalogs[0], wanted) { AddonRows(addon, catalogs[1..], wanted, room, ask); }
      else {
        AddonRows(addon, catalogs[1..], wanted, room - 1, ask);
        var job := Job(addon, catalogs[0]);
        OneRow(job, ask);
        RowsSplit([job], AddonJobs(addon, catalogs[1..], wanted, room - 1), ask);
      }
    }
  }

  lemma {:induction false} AllRows(addons: seq<Addon>, failed: set<string>, wanted: set<string>, ask: Job -> Outcome)
    ensures var jobs := AllJobs(addons, failed, wanted);
      Rows(jobs, Asked(jobs, ask)) == SerialHome(addons, failed, wanted, ask)
  {
    if addons != [] {
      AllRows(addons[1..], failed, wanted, ask);
      var rest := AllJobs(addons[1..], failed, wanted);
      if addons[0].id in failed {
        assert AllJobs(addons, failed, wanted) == rest;
        assert SerialHome(addons, failed, wanted, ask) == SerialHome(addons[1..], failed, wanted, ask);
      } else {
        AddonRows(addons[0], addons[0].catalogs, wanted, HOME_CATALOGS_PER_ADDON, ask);
        RowsSplit(AddonJobs(addons[0], addons[0].catalogs, wanted, HOME_CATALOGS_PER_ADDON), rest, ask);
      }
    }
  }

  /**
   However the workers were scheduled, once they are all done the home screen is the serial one: the
   same rows, in the same order, and no addon is penalised.
   */
  lemma {:induction false} FanOutMakesTheSerialScreen(
    states: seq<State>, schedule: seq<nat>, width: nat, k: nat,
    addons: seq<Addon>, failed: set<string>, wanted: set<string>, ask: Job -> Outcome, askIndex: nat -> Outcome)
    requires var jobs := AllJobs(addons, failed, wanted);
      && (forall i: nat :: i < |jobs| ==> askIndex(i) == ask(jobs[i]))
      && IsRun(states, schedule, |jobs|, width, askIndex)
    requires k < |states| && AllRetired(states[k]) && width > 0
    ensures var jobs := AllJobs(addons, failed, wanted);
      && |states[k].results| == |states[k].answered| == |jobs|
      && Rows(jobs, states[k].results) == SerialHome(addons, failed, wanted, ask)
      && forall i :: 0 <= i < |jobs| ==> states[k].answered[i]
  {
    var jobs := AllJobs(addons, failed, wanted);
    FinishedIsComplete(states, schedule, |jobs|, width, askIndex, k);
    assert states[k].results == Asked(jobs, ask);
    AllRows(addons, failed, wanted, ask);
  }

  // ------------------------------------------------------------- the deadline

  /** `a` is `b` with some elements left out. */
  predicate Within<T(==)>(a: seq<T>, b: seq<T>)
    decreases |b|
  {
    if a == [] then true
    else if b == [] then false
    else
      || Within(a, b[..|b| - 1])
      || (a[|a| - 1] == b[|b| - 1] && Within(a[..|a| - 1], b[..|b| - 1]))
  }

  lemma {:induction false} WithinAppend<T>(a: seq<T>, b: seq<T>, one: seq<T>)
    requires Within(a, b) && |one| <= 1
    ensures Within(a, b + one) && Within(a + one, b + one)
  {
    if one == [] {
      assert a + one == a && b + one == b;
    } else {
      InitOfConcat(a, one);
      InitOfConcat(b, one);
      assert a + one[..0] == a && b + one[..0] == b;
    }
  }

  lemma {:induction false} RowsWithin(jobs: seq<Job>, some: seq<Option<Outcome>>, more: seq<Option<Outcome>>)
    requires |jobs| == |some| == |more| && forall i :: 0 <= i < |jobs| && some[i].Some? ==> more[i] == some[i]
    ensures Within(Rows(jobs, some), Rows(jobs, more))
  {
    if jobs != [] {
      var last := |jobs| - 1;
      RowsWithin(jobs[..last], some[..last], more[..last]);
      WithinAppend(Rows(jobs[..last], some[..last]), Rows(jobs[..last], more[..last]), RowFor(jobs[last], more[last]));
      if some[last].None? {
        assert Rows(jobs[..last], some[..last]) + [] == Rows(jobs[..last], some[..last]);
      }
    }
  }

  /** The rows of the catalogues for which `written` says so, in the order of the serial screen. */
  function RowsOf(jobs: seq<Job>, written: seq<bool>, ask: Job -> Outcome): seq<Row>
    requires |jobs| == |written|
  {
    if jobs == [] then []
    else
      var last := |jobs| - 1;
      RowsOf(jobs[..last], written[..last], ask) + if written[last] then Shown(jobs[last], ask(jobs[last])) else []
  }

  lemma {:induction false} RowsAreOf(jobs: seq<Job>, results: seq<Option<Outcome>>, written: seq<bool>, ask: Job -> Outcome)
    requires |jobs| == |results| == |written|
    requires forall i :: 0 <= i < |jobs| ==> results[i] == if written[i] then Some(ask(jobs[i])) else None
    ensures Rows(jobs, results) == RowsOf(jobs, written, ask)
  {
    if jobs != [] {
      var last := |jobs| - 1;
      RowsAreOf(jobs[..last], results[..last], written[..last], ask);
    }
  }

  function Written(s: State): seq<bool> { seq(|s.results|, i requires 0 <= i < |s.results| => s.results[i].Some?) }

  lemma {:induction false} WrittenStays(states: seq<State>, schedule: seq<nat>, jobs: nat, width: nat, ask: nat -> Outcome,
                                        j: nat, k: nat, i: nat)
    requires IsRun(states, schedule, jobs, width, ask) && j <= k < |states| && i < jobs
    ensures |states[j].results| == |states[k].results| == jobs
    ensures states[j].results[i].Some? ==> states[k].results[i] == states[j].results[i]
    decreases k
  {
    RunKeeps(states, schedule, jobs, width, ask, j);
    RunKeeps(states, schedule, jobs, width, ask, k);
    if j < k { WrittenStays(states, schedule, jobs, width, ask, j, k - 1, i); }
  }

  /**
   A copy taken at any moment, the deadline's above all: its rows are those of the serial screen whose catalogues
   were written by then, as they will be and in their order.  Waiting longer only ever puts more in between.
   */
  lemma {:induction false} CopyIsPartOfTheSerialScreen(
    states: seq<State>, schedule: seq<nat>, width: nat, j: nat, k: nat,
    addons: seq<Addon>, failed: set<string>, wanted: set<string>, ask: Job -> Outcome, askIndex: nat -> Outcome)
    requires var jobs := AllJobs(addons, failed, wanted);
      && (forall i: nat :: i < |jobs| ==> askIndex(i) == ask(jobs[i]))
      && IsRun(states, schedule, |jobs|, width, askIndex)
    requires j <= k < |states|
    ensures var jobs := AllJobs(addons, failed, wanted);
      && |states[j].results| == |states[k].results| == |jobs|
      && Rows(jobs, states[k].results) == RowsOf(jobs, Written(states[k]), ask)
      && SerialHome(addons, failed, wanted, ask) == RowsOf(jobs, seq(|jobs|, _ => true), ask)
      && Within(Rows(jobs, states[j].results), Rows(jobs, states[k].results))
      && Within(Rows(jobs, states[k].results), SerialHome(addons, failed, wanted, ask))
  {
    var jobs := AllJobs(addons, failed, wanted);
    RunKeeps(states, schedule, |jobs|, width, askIndex, j);
    RunKeeps(states, schedule, |jobs|, width, askIndex, k);
    forall i | 0 <= i < |jobs| && states[j].results[i].Some? ensures states[k].results[i] == states[j].results[i] {
      WrittenStays(states, schedule, |jobs|, width, askIndex, j, k, i);
    }
    AllRows(addons, failed, wanted, ask);
    RowsAreOf(jobs, states[k].results, Written(states[k]), ask);
    RowsAreOf(jobs, Asked(jobs, ask), seq(|jobs|, _ => true), ask);
    RowsWithin(jobs, states[j].results, states[k].results);
    RowsWithin(jobs, states[k].results, Asked(jobs, ask));
  }

  // ------------------------------------------------------------- two copies

  /** What the search screen shows of one catalogue, from its result and its answered flag as copied. */
  datatype SearchRow = Found(items: seq<string>) | NoAnswer | LeftOut

  function Searched(result: Option<Outcome>, done: bool): SearchRow {
    if !done then NoAnswer
    else match result
      case Some(Raised) => NoAnswer
      case Some(Items(items)) =>
        if items == [] then LeftOut
        else Found(if |items| > SEARCH_RESULTS_PER_CATALOG then items[..SEARCH_RESULTS_PER_CATALOG] else items)
      case None => LeftOut
  }

  /**
   Copied at one moment, a catalogue is in the search exactly as it stands: with the first of what it answered,
   left out if that was nothing, and said not to have answered if it has not or has failed.
   */
  lemma {:induction false} OneCopySays(states: seq<State>, schedule: seq<nat>, jobs: nat, width: nat,
                                       ask: nat -> Outcome, a: nat, i: nat)
    requires IsRun(states, schedule, jobs, width, ask) && a < |states| && i < jobs
    ensures |states[a].results| == |states[a].answered| == jobs
    ensures match Searched(states[a].results[i], states[a].answered[i])
      case Found(items) =>
        && states[a].answered[i] && ask(i).Items? && items != [] && items <= ask(i).items
        && (|items| == 20 || (|items| < 20 && items == ask(i).items))
      case LeftOut => states[a].answered[i] && ask(i) == Items([])
      case NoAnswer => !states[a].answered[i] || ask(i) == Raised
  {
    RunKeeps(states, schedule, jobs, width, ask, a);
  }

  /** What it should show: what the catalogue came to. */
  function Deserved(outcome: Outcome): SearchRow { Searched(Some(outcome), true) }

  /**
   The results are copied first and the answered flags after them, so a worker may come in between.
   Copied at moments `a` and `b` of a run, a catalogue is shown as what it came to or as not having
   answered, except exactly when its result was written after the first copy and its flag before the
   second: it is then left out in silence, as if it had answered with nothing.
   */
  lemma {:induction false} TwoCopiesLoseIff(states: seq<State>, schedule: seq<nat>, jobs: nat, width: nat,
                                            ask: nat -> Outcome, a: nat, b: nat, i: nat)
    requires IsRun(states, schedule, jobs, width, ask) && a <= b < |states| && i < jobs
    requires Deserved(ask(i)) != LeftOut
    ensures |states[a].results| == |states[b].answered| == jobs
    ensures Searched(states[a].results[i], states[b].answered[i]) in {Deserved(ask(i)), NoAnswer}
      <==> !(states[a].results[i].None? && states[b].answered[i])
    ensures a == b ==> Searched(states[a].results[i], states[b].answered[i]) in {Deserved(ask(i)), NoAnswer}
  {
    RunKeeps(states, schedule, jobs, width, ask, a);
    RunKeeps(states, schedule, jobs, width, ask, b);
  }

  /** And it does happen: one worker, one job, and its answer between the two copies. */
  lemma {:induction false} TwoCopiesLose() returns (states: seq<State>, schedule: seq<nat>)
    ensures var ask := (i: nat) => Items(["film"]);
      && IsRun(states, schedule, 1, 1, ask) && |states| == 4
      && |states[1].results| == |states[3].answered| == 1
      && Deserved(ask(0)) == Found(["film"])
      && Searched(states[1].results[0], states[3].answered[0]) == LeftOut
  {
    var ask := (i: nat) => Items(["film"]);
    var s0 := Start(1, 1);
    var s1 := Step(s0, 0, ask);
    var s2 := Step(s1, 0, ask);
    var s3 := Step(s2, 0, ask);
    states, schedule := [s0, s1, s2, s3], [0, 0, 0];
  }
}

/**
 * `runGates` of scripts/run-gates.ts. `Promise.race` may report any running gate,
 * so the wait is a nondeterministic choice; the log records the starts and the
 * observer calls in the order in which they happen.
 */
module GateScheduler {
  import opened Wrappers
  import opened GateGraph
  import opened GateOutcomes

  datatype GateState = Pending | Running | Settled(status: Status)

  type States = map<string, GateState>
  type Results = map<string, GateResult>

  datatype Event = Start(id: string) | Observe(id: string, status: Status)

  datatype RunOutcome =
    | Finished(results: seq<GateResult>)
    | InvalidGraph(error: GraphError)
    | InvalidConcurrency
    | Stalled
    | MissingResult

  // ----- which logs a run may produce

  ghost predicate Observed(log: seq<Event>, id: string) {
    exists s :: Observe(id, s) in log
  }

  /** Not started, and every need was seen to pass. */
  ghost predicate Ready(log: seq<Event>, g: Gate) {
    Start(g.id) !in log && forall n :: n in g.needs ==> Observe(n, Passed) in log
  }

  ghost predicate NoneReady(gates: seq<Gate>, log: seq<Event>) {
    forall g :: g in gates ==> !Ready(log, g)
  }

  ghost function InFlight(gates: seq<Gate>, log: seq<Event>): set<string> {
    set g | g in gates && Start(g.id) in log && !Observed(log, g.id) :: g.id
  }

  /** Some need of `g` was seen to fail or to be skipped. */
  ghost predicate SawBlocker(log: seq<Event>, g: Gate) {
    exists n, s :: n in g.needs && s != Passed && Observe(n, s) in log
  }

  /**
   * What may follow `log`. A start needs a ready gate and a free slot. A settlement
   * is awaited only when the pool is full or nothing is ready. A gate is skipped
   * only once nothing runs or could, and one of its needs was seen not to pass.
   */
  ghost predicate LegalStep(gates: seq<Gate>, limit: int, log: seq<Event>, e: Event) {
    && (exists g :: g in gates && g.id == e.id)
    && match e
       case Start(id) =>
         (forall g :: g in gates && g.id == id ==> Ready(log, g)) && |InFlight(gates, log)| < limit
       case Observe(id, s) =>
         && !Observed(log, id)
         && if Start(id) in log then
              |InFlight(gates, log)| == limit || NoneReady(gates, log)
            else
              && s == Skipped && InFlight(gates, log) == {} && NoneReady(gates, log)
              && forall g :: g in gates && g.id == id ==> SawBlocker(log, g)
  }

  ghost predicate Legal(gates: seq<Gate>, limit: int, log: seq<Event>) {
    forall k :: 0 <= k < |log| ==> LegalStep(gates, limit, log[..k], log[k])
  }

  // ----- list order, and what is reported, told by the log alone

  /** `h` could have been started, or skipped, where the event does that to another gate. */
  ghost predicate CouldGo(h: Gate, log: seq<Event>, e: Event) {
    match e
    case Start(_) => Ready(log, h)
    case Observe(id, _) => Start(id) !in log && !Observed(log, h.id) && SawBlocker(log, h)
  }

  /** No gate listed before this one could have gone instead. */
  ghost predicate FirstInList(gates: seq<Gate>, log: seq<Event>, e: Event) {
    exists i :: 0 <= i < |gates| && gates[i].id == e.id && forall j :: 0 <= j < i ==> !CouldGo(gates[j], log, e)
  }

  /** Gates start in list order, as they become ready, and are skipped in list order, as they become blocked. */
  ghost predicate InListOrder(gates: seq<Gate>, log: seq<Event>) {
    forall k :: 0 <= k < |log| ==> FirstInList(gates, log[..k], log[k])
  }

  /** The need was seen to fail or to be skipped. */
  ghost predicate SeenBad(log: seq<Event>, n: string) {
    exists t :: t != Passed && Observe(n, t) in log
  }

  /** `picked` is `xs` at the places `at`, in order. */
  ghost predicate Picks(picked: seq<string>, xs: seq<string>, at: seq<nat>) {
    && |picked| == |at|
    && (forall i :: 0 <= i < |at| ==> at[i] < |xs| && picked[i] == xs[at[i]])
    && (forall i, j :: 0 <= i < j < |at| ==> at[i] < at[j])
  }

  /** In the order of the needs, exactly those that were seen to fail or to be skipped. */
  ghost predicate NamesBlockers(names: seq<string>, needs: seq<string>, log: seq<Event>) {
    exists at: seq<nat> :: Picks(names, needs, at) && BadPlaces(at, needs, log)
  }

  ghost predicate BadPlaces(at: seq<nat>, needs: seq<string>, log: seq<Event>) {
    forall i: nat :: i < |needs| ==> (i in at <==> SeenBad(log, needs[i]))
  }

  /** What is reported of a gate when event `k` observes it. */
  ghost predicate ReportedAt(execute: Executor, log: seq<Event>, k: nat, g: Gate, r: GateResult) {
    && k < |log| && log[k].Observe? && log[k].id == g.id
    && if Start(g.id) in log[..k] then r == execute(g)
       else
         && r.gate == g && log[k].status == Skipped == r.status && r.output == ""
         && NamesBlockers(r.blockedBy, g.needs, log[..k])
  }

  ghost predicate Reported(execute: Executor, log: seq<Event>, g: Gate, r: GateResult) {
    exists k: nat :: ReportedAt(execute, log, k, g, r)
  }

  ghost predicate AllReported(gates: seq<Gate>, execute: Executor, log: seq<Event>, results: Results) {
    forall g :: g in gates && g.id in results ==> Reported(execute, log, g, results[g.id])
  }

  lemma {:induction false} OrderSnoc(gates: seq<Gate>, log: seq<Event>, e: Event)
    requires InListOrder(gates, log) && FirstInList(gates, log, e)
    ensures InListOrder(gates, log + [e])
  {
    hide FirstInList;
    var longer := log + [e];
    forall k | 0 <= k < |longer| ensures FirstInList(gates, longer[..k], longer[k]) {
      assert longer[..k] == log[..k];
      assert k == |log| ==> log[..k] == log;
    }
  }

  lemma {:induction false} ReportedGrows(execute: Executor, log: seq<Event>, e: Event, g: Gate, r: GateResult)
    requires Reported(execute, log, g, r)
    ensures Reported(execute, log + [e], g, r)
  {
    hide NamesBlockers;
    var k: nat :| ReportedAt(execute, log, k, g, r);
    assert (log + [e])[..k] == log[..k];
    assert ReportedAt(execute, log + [e], k, g, r);
  }

  lemma {:induction false} AllReportedGrows(gates: seq<Gate>, execute: Executor, log: seq<Event>, results: Results,
                                            e: Event)
    requires AllReported(gates, execute, log, results)
    ensures AllReported(gates, execute, log + [e], results)
  {
    hide Reported;
    forall g | g in gates && g.id in results ensures Reported(execute, log + [e], g, results[g.id]) {
      ReportedGrows(execute, log, e, g, results[g.id]);
    }
  }

  /** One more gate is observed, and its report is right. */
  lemma {:induction false} OneMoreReported(gates: seq<Gate>, execute: Executor, log: seq<Event>, results: Results,
                                           e: Event, g: Gate, r: GateResult)
    requires AllReported(gates, execute, log, results) && ReportedAt(execute, log + [e], |log|, g, r)
    requires forall h :: h in gates && h.id == g.id ==> h == g
    ensures AllReported(gates, execute, log + [e], results[g.id := r])
  {
    AllReportedGrows(gates, execute, log, results, e);
    hide ReportedAt;
    assert Reported(execute, log + [e], g, r);
  }

  lemma LegalSnoc(gates: seq<Gate>, limit: int, log: seq<Event>, e: Event)
    requires Legal(gates, limit, log) && LegalStep(gates, limit, log, e)
    ensures Legal(gates, limit, log + [e])
  {
    var longer := log + [e];
    forall k | 0 <= k < |longer| ensures LegalStep(gates, limit, longer[..k], longer[k]) {
      if k < |log| {
        assert longer[..k] == log[..k];
      } else {
        assert longer[..k] == log;
      }
    }
  }

  lemma InFlightStep(gates: seq<Gate>, log: seq<Event>, e: Event)
    ensures InFlight(gates, log + [e]) <= InFlight(gates, log) + if e.Start? then {e.id} else {}
  {
    forall id | Observed(log, id) ensures Observed(log + [e], id) {
      var s :| Observe(id, s) in log;
      assert Observe(id, s) in log + [e];
    }
  }

  lemma StepBounds(gates: seq<Gate>, limit: int, log: seq<Event>, e: Event)
    requires LegalStep(gates, limit, log, e) && |InFlight(gates, log)| <= limit
    ensures |InFlight(gates, log + [e])| <= limit
  {
    InFlightStep(gates, log, e);
    SubsetCardinality(InFlight(gates, log + [e]), InFlight(gates, log) + if e.Start? then {e.id} else {});
  }

  /** At every moment of a legal log at most `limit` gates are in flight. */
  lemma {:induction false} LegalBoundsConcurrency(gates: seq<Gate>, limit: int, log: seq<Event>, k: nat)
    requires Legal(gates, limit, log) && 0 <= limit && k <= |log|
    ensures |InFlight(gates, log[..k])| <= limit
  {
    hide *;
    if k == 0 {
      NothingInFlight(gates, log[..0]);
    } else {
      LegalBoundsConcurrency(gates, limit, log, k - 1);
      LegalAt(gates, limit, log, k - 1);
      StepBounds(gates, limit, log[..k - 1], log[k - 1]);
      assert log[..k] == log[..k - 1] + [log[k - 1]];
    }
  }

  lemma NothingInFlight(gates: seq<Gate>, log: seq<Event>)
    requires log == []
    ensures InFlight(gates, log) == {}
  {}

  lemma LegalAt(gates: seq<Gate>, limit: int, log: seq<Event>, k: nat)
    requires Legal(gates, limit, log) && k < |log|
    ensures LegalStep(gates, limit, log[..k], log[k])
  {}

  lemma {:induction false} SubsetCardinality<T>(a: set<T>, b: set<T>)
    requires a <= b
    ensures |a| <= |b|
  {
    if a != {} {
      var x :| x in a;
      SubsetCardinality(a - {x}, b - {x});
    }
  }

  /** In a legal log no gate starts twice and none is observed twice. */
  lemma LegalOnce(gates: seq<Gate>, limit: int, log: seq<Event>, i: nat, j: nat)
    requires Legal(gates, limit, log) && i < j < |log|
    ensures log[i].Start? && log[j].Start? ==> log[i].id != log[j].id
    ensures log[i].Observe? && log[j].Observe? ==> log[i].id != log[j].id
  {
    assert LegalStep(gates, limit, log[..j], log[j]);
    assert log[i] in log[..j];
    if log[i].Observe? { assert Observed(log[..j], log[i].id); }
  }

  /** A started gate has every need observed as passed strictly before its start. */
  lemma LegalNeedsFirst(gates: seq<Gate>, limit: int, log: seq<Event>, j: nat, g: Gate, n: string)
    requires Legal(gates, limit, log) && j < |log| && log[j] == Start(g.id) && g in gates && n in g.needs
    ensures exists i :: 0 <= i < j && log[i] == Observe(n, Passed)
  {
    assert LegalStep(gates, limit, log[..j], log[j]);
    assert Observe(n, Passed) in log[..j];
  }

  // ----- the pure pieces of the scheduler

  predicate DependenciesPassed(g: Gate, states: States) {
    forall n | n in g.needs :: n in states && states[n] == Settled(Passed)
  }

  predicate IsBlocker(states: States, n: string) {
    n in states && states[n].Settled? && states[n].status != Passed
  }

  predicate IsBlocked(g: Gate, states: States) {
    exists n | n in g.needs :: IsBlocker(states, n)
  }

  /** `(gate.needs ?? []).filter(...)`: the needs that failed or were skipped so far. */
  function Blockers(needs: seq<string>, states: States): (b: seq<string>)
    ensures forall n :: n in b <==> n in needs && IsBlocker(states, n)
  {
    if needs == [] then []
    else (if IsBlocker(states, needs[0]) then [needs[0]] else []) + Blockers(needs[1..], states)
  }

  predicate CanStart(g: Gate, states: States) {
    g.id in states && states[g.id] == Pending && DependenciesPassed(g, states)
  }

  ghost predicate FirstToStart(gates: seq<Gate>, states: States, g: Gate, i: nat) {
    i < |gates| && gates[i] == g && CanStart(g, states) && forall j :: 0 <= j < i ==> !CanStart(gates[j], states)
  }

  /** The first gate in list order that can start. */
  function FindReady(gates: seq<Gate>, states: States): (r: Option<Gate>)
    ensures r.Some? ==> exists i :: FirstToStart(gates, states, r.value, i)
    ensures r.None? ==> forall g :: g in gates ==> !CanStart(g, states)
  {
    if gates == [] then None
    else if CanStart(gates[0], states) then
      assert FirstToStart(gates, states, gates[0], 0);
      Some(gates[0])
    else
      LaterStart(gates, states);
      FindReady(gates[1..], states)
  }

  lemma LaterStart(gates: seq<Gate>, states: States)
    requires gates != [] && !CanStart(gates[0], states)
    ensures forall g, i: nat :: FirstToStart(gates[1..], states, g, i) ==> FirstToStart(gates, states, g, i + 1)
  {
    hide CanStart;
    forall g, i: nat | FirstToStart(gates[1..], states, g, i) ensures FirstToStart(gates, states, g, i + 1) {
      forall j | 0 <= j < i + 1 ensures !CanStart(gates[j], states) {
        if j > 0 { assert gates[j] == gates[1..][j - 1]; }
      }
    }
  }

  /** The first pending gate with a failed or skipped need. */
  function FindBlocked(pending: seq<Gate>, states: States): (r: Option<Gate>)
    ensures r.Some? ==> r.value in pending && IsBlocked(r.value, states)
    ensures r.None? ==> forall g :: g in pending ==> !IsBlocked(g, states)
  {
    if pending == [] then None
    else if IsBlocked(pending[0], states) then Some(pending[0])
    else FindBlocked(pending[1..], states)
  }

  predicate Waits(g: Gate, states: States) {
    g.id in states && states[g.id] == Pending
  }

  function PendingGates(gates: seq<Gate>, states: States): (r: seq<Gate>)
    ensures forall g :: g in r <==> g in gates && g.id in states && states[g.id] == Pending
  {
    if gates == [] then []
    else (if Waits(gates[0], states) then [gates[0]] else []) + PendingGates(gates[1..], states)
  }

  /** `pending.filter(item => item !== gate)` */
  function Without(pending: seq<Gate>, g: Gate): (r: seq<Gate>)
    ensures forall h :: h in r <==> h in pending && h != g
    ensures |r| <= |pending| && (g in pending ==> |r| < |pending|)
  {
    if pending == [] then []
    else (if pending[0] == g then [] else [pending[0]]) + Without(pending[1..], g)
  }

  function SkipResult(g: Gate, states: States): GateResult {
    GateResult(g, Skipped, "", Blockers(g.needs, states))
  }

  // ----- the results every run must return

  /** Settle the pending gates one by one, first blocked gate first. */
  function Drain(pending: seq<Gate>, states: States, results: Results): Results
    decreases |pending|
  {
    match FindBlocked(pending, states)
    case None => results
    case Some(g) => Drain(Without(pending, g), states[g.id := Settled(Skipped)], results[g.id := SkipResult(g, states)])
  }

  /** Every gate whose needs pass has run, and nothing else has. */
  ghost function EntryStates(gates: seq<Gate>, s: Statuses): States {
    map id | id in Ids(gates) && id in s :: if NeedsPassed(GateOf(gates, id), s) then Settled(s[id]) else Pending
  }

  ghost function EntryResults(gates: seq<Gate>, execute: Executor, s: Statuses): Results {
    map id | id in Ids(gates) && NeedsPassed(GateOf(gates, id), s) :: execute(GateOf(gates, id))
  }

  ghost function DrainedResults(gates: seq<Gate>, execute: Executor, s: Statuses): Results {
    var states := EntryStates(gates, s);
    Drain(PendingGates(gates, states), states, EntryResults(gates, execute, s))
  }

  /** The result of every gate: a function of the gates and their outcomes alone. */
  ghost function FinalResults(gates: seq<Gate>, execute: Executor): Results
    requires WellFormed(gates)
  {
    DrainedResults(gates, execute, FinalStatuses(gates, execute))
  }

  // ----- what the scheduling loop keeps

  /** `s` is the solution the run is heading for; the loop never computes it. */
  ghost predicate RunInv(gates: seq<Gate>, execute: Executor, s: Statuses,
                         states: States, results: Results, running: seq<Gate>, log: seq<Event>)
  {
    && RunningAgrees(gates, states, running)
    && OutcomesAgree(gates, execute, s, states, results)
    && LogAgrees(gates, states, log)
  }

  /** `running` lists exactly the gates in state `running`, each once. */
  ghost predicate RunningAgrees(gates: seq<Gate>, states: States, running: seq<Gate>)
  {
    && states.Keys == Ids(gates)
    && (forall g :: g in running <==> g in gates && states[g.id] == Running)
    && Distinct(running)
  }

  ghost predicate Distinct<T>(xs: seq<T>) {
    forall i, j :: 0 <= i < j < |xs| ==> xs[i] != xs[j]
  }

  /** Only gates whose needs pass are run, and they settle with their executor's result. */
  ghost predicate OutcomesAgree(gates: seq<Gate>, execute: Executor, s: Statuses, states: States, results: Results)
  {
    && states.Keys == Ids(gates)
    && (forall g :: g in gates && states[g.id] != Pending ==> NeedsPassed(g, s))
    && (forall g :: g in gates && states[g.id].Settled? ==>
          states[g.id].status == execute(g).status && g.id in results && results[g.id] == execute(g))
    && (forall id :: id in results ==> id in states && states[id].Settled?)
  }

  ghost predicate LogAgrees(gates: seq<Gate>, states: States, log: seq<Event>)
  {
    && states.Keys == Ids(gates)
    && (forall g :: g in gates ==> (Start(g.id) in log <==> states[g.id] != Pending))
    && (forall g, s :: g in gates ==> (Observe(g.id, s) in log <==> states[g.id] == Settled(s)))
  }

  /** Distinct gates have distinct ids. */
  ghost predicate IdsIdentify(gates: seq<Gate>) {
    forall g, h :: g in gates && h in gates && g.id == h.id ==> g == h
  }

  lemma {:induction false} CountIds(running: seq<Gate>)
    requires forall i, j :: 0 <= i < j < |running| ==> running[i].id != running[j].id
    ensures |Ids(running)| == |running|
  {
    if running == [] {
      assert Ids(running) == {};
    } else {
      var rest := running[..|running| - 1];
      CountIds(rest);
      assert Ids(running) == Ids(rest) + {running[|running| - 1].id};
    }
  }

  lemma ObservedAgrees(gates: seq<Gate>, states: States, log: seq<Event>, g: Gate)
    requires states.Keys == Ids(gates) && LogAgrees(gates, states, log) && g in gates
    ensures Observed(log, g.id) <==> states[g.id].Settled?
  {
    if Observed(log, g.id) {
      var t :| Observe(g.id, t) in log;
      assert states[g.id] == Settled(t);
    }
    if states[g.id].Settled? {
      assert states[g.id] == Settled(states[g.id].status);
      assert Observe(g.id, states[g.id].status) in log;
    }
  }

  lemma InFlightIsRunning(gates: seq<Gate>, states: States, running: seq<Gate>, log: seq<Event>)
    requires IdsIdentify(gates) && states.Keys == Ids(gates)
    requires RunningAgrees(gates, states, running) && LogAgrees(gates, states, log)
    ensures |InFlight(gates, log)| == |running| && InFlight(gates, log) == Ids(running)
  {
    forall g | g in gates ensures Observed(log, g.id) <==> states[g.id].Settled? {
      ObservedAgrees(gates, states, log, g);
    }
    forall i, j | 0 <= i < j < |running| ensures running[i].id != running[j].id {
      assert running[i] in gates && running[j] in gates;
    }
    CountIds(running);
    assert InFlight(gates, log) == Ids(running);
  }

  lemma ReadyAgrees(gates: seq<Gate>, states: States, log: seq<Event>, g: Gate)
    requires KnownNeeds(gates) && states.Keys == Ids(gates) && LogAgrees(gates, states, log) && g in gates
    ensures Ready(log, g) <==> states[g.id] == Pending && DependenciesPassed(g, states)
  {
    forall n | n in g.needs ensures Observe(n, Passed) in log <==> states[n] == Settled(Passed) {
      var h := GateOf(gates, n);
    }
  }

  /** What settled as passed is passed in the solution. */
  lemma PassedNeeds(gates: seq<Gate>, execute: Executor, s: Statuses, states: States, results: Results, g: Gate)
    requires states.Keys == Ids(gates) && OutcomesAgree(gates, execute, s, states, results) && Solves(gates, execute, s)
    requires g in gates && DependenciesPassed(g, states)
    ensures NeedsPassed(g, s)
  {
    forall n | n in g.needs ensures n in s && s[n] == Passed {
      var h := GateOf(gates, n);
    }
  }

  lemma LogGrows(gates: seq<Gate>, states: States, log: seq<Event>, g: Gate, state: GateState, e: Event)
    requires IdsIdentify(gates) && states.Keys == Ids(gates) && LogAgrees(gates, states, log) && g in gates
    requires (states[g.id] == Pending && state == Running && e == Start(g.id))
          || (states[g.id] == Running && state.Settled? && e == Observe(g.id, state.status))
    ensures LogAgrees(gates, states[g.id := state], log + [e])
  {
    forall h | h in gates && h != g ensures h.id != g.id {}
  }

  lemma RunningGrows(gates: seq<Gate>, states: States, running: seq<Gate>, g: Gate)
    requires IdsIdentify(gates) && states.Keys == Ids(gates) && RunningAgrees(gates, states, running)
    requires g in gates && states[g.id] == Pending
    ensures RunningAgrees(gates, states[g.id := Running], running + [g])
  {
    assert g !in running;
    forall h | h in gates && h != g ensures h.id != g.id {}
  }

  lemma RemoveAt(xs: seq<Gate>, k: nat)
    requires k < |xs| && Distinct(xs)
    ensures forall x :: x in xs[..k] + xs[k + 1..] <==> x in xs && x != xs[k]
    ensures Distinct(xs[..k] + xs[k + 1..])
  {
    var rest := xs[..k] + xs[k + 1..];
    forall x | x in xs && x != xs[k] ensures x in rest {
      var i :| 0 <= i < |xs| && xs[i] == x;
      assert rest[if i < k then i else i - 1] == x;
    }
  }

  lemma RunningShrinks(gates: seq<Gate>, states: States, running: seq<Gate>, k: nat, status: Status)
    requires IdsIdentify(gates) && RunningAgrees(gates, states, running) && k < |running|
    ensures RunningAgrees(gates, states[running[k].id := Settled(status)], running[..k] + running[k + 1..])
  {
    var g := running[k];
    RemoveAt(running, k);
    assert g in running;
    forall h | h in gates && h != g ensures h.id != g.id {}
  }

  lemma OutcomesStart(gates: seq<Gate>, execute: Executor, s: Statuses, states: States, results: Results, g: Gate)
    requires IdsIdentify(gates) && states.Keys == Ids(gates) && OutcomesAgree(gates, execute, s, states, results)
    requires g in gates && states[g.id] == Pending && NeedsPassed(g, s)
    ensures OutcomesAgree(gates, execute, s, states[g.id := Running], results)
  {
    forall h | h in gates && h != g ensures h.id != g.id {}
  }

  lemma OutcomesSettle(gates: seq<Gate>, execute: Executor, s: Statuses, states: States, results: Results, g: Gate)
    requires IdsIdentify(gates) && states.Keys == Ids(gates) && OutcomesAgree(gates, execute, s, states, results)
    requires g in gates && states[g.id] == Running
    ensures OutcomesAgree(gates, execute, s, states[g.id := Settled(execute(g).status)], results[g.id := execute(g)])
  {
    forall h | h in gates && h != g ensures h.id != g.id {}
  }

  /** Starting a ready gate in a free slot. */
  lemma StartKeeps(gates: seq<Gate>, execute: Executor, s: Statuses, limit: int, states: States, results: Results,
                   running: seq<Gate>, log: seq<Event>, g: Gate)
    requires IdsIdentify(gates) && KnownNeeds(gates) && Solves(gates, execute, s)
    requires RunInv(gates, execute, s, states, results, running, log) && Legal(gates, limit, log)
    requires |running| < limit && g in gates && states[g.id] == Pending && DependenciesPassed(g, states)
    ensures RunInv(gates, execute, s, states[g.id := Running], results, running + [g], log + [Start(g.id)])
    ensures Legal(gates, limit, log + [Start(g.id)])
  {
    ReadyAgrees(gates, states, log, g);
    InFlightIsRunning(gates, states, running, log);
    LegalSnoc(gates, limit, log, Start(g.id));
    PassedNeeds(gates, execute, s, states, results, g);
    LogGrows(gates, states, log, g, Running, Start(g.id));
    RunningGrows(gates, states, running, g);
    OutcomesStart(gates, execute, s, states, results, g);
  }

  /** No pending gate has all its needs passed. */
  ghost predicate NothingReady(gates: seq<Gate>, states: States)
  {
    && states.Keys == Ids(gates)
    && (forall g :: g in gates && states[g.id] == Pending ==> !DependenciesPassed(g, states))
  }

  lemma NothingReadyAgrees(gates: seq<Gate>, states: States, log: seq<Event>)
    requires KnownNeeds(gates) && states.Keys == Ids(gates) && LogAgrees(gates, states, log)
    ensures NothingReady(gates, states) <==> NoneReady(gates, log)
  {
    forall g | g in gates ensures Ready(log, g) <==> states[g.id] == Pending && DependenciesPassed(g, states) {
      ReadyAgrees(gates, states, log, g);
    }
  }

  /** The wait: any running gate settles with its executor's result. */
  lemma SettleKeeps(gates: seq<Gate>, execute: Executor, s: Statuses, limit: int, states: States, results: Results,
                    running: seq<Gate>, log: seq<Event>, k: nat)
    requires IdsIdentify(gates) && KnownNeeds(gates)
    requires RunInv(gates, execute, s, states, results, running, log) && Legal(gates, limit, log)
    requires k < |running| && (|running| == limit || NothingReady(gates, states))
    ensures var g, r := running[k], execute(running[k]);
            RunInv(gates, execute, s, states[g.id := Settled(r.status)], results[g.id := r],
                   running[..k] + running[k + 1..], log + [Observe(g.id, r.status)])
    ensures Legal(gates, limit, log + [Observe(running[k].id, execute(running[k]).status)])
  {
    var g, status := running[k], execute(running[k]).status;
    assert g in gates && states[g.id] == Running;
    InFlightIsRunning(gates, states, running, log);
    NothingReadyAgrees(gates, states, log);
    ObservedAgrees(gates, states, log, g);
    LegalSnoc(gates, limit, log, Observe(g.id, status));
    LogGrows(gates, states, log, g, Settled(status), Observe(g.id, status));
    RunningShrinks(gates, states, running, k, status);
    OutcomesSettle(gates, execute, s, states, results, g);
  }

  // ----- when nothing runs any more

  lemma {:induction false} PendingIsBlocked(gates: seq<Gate>, execute: Executor, s: Statuses, rank: Ranks,
                                            states: States, results: Results, g: Gate)
    requires Ranking(gates, rank) && Solves(gates, execute, s)
    requires OutcomesAgree(gates, execute, s, states, results) && NothingReady(gates, states)
    requires forall h :: h in gates ==> states[h.id] != Running
    requires g in gates && states[g.id] == Pending
    ensures !NeedsPassed(g, s)
    decreases rank[g.id]
  {
    var n :| n in g.needs && !(n in states && states[n] == Settled(Passed));
    var h := GateOf(gates, n);
    if states[n] == Pending {
      PendingIsBlocked(gates, execute, s, rank, states, results, h);
    }
  }

  /** The state after `pending` is all that is left: everything else has its final status. */
  ghost predicate SkipInv(gates: seq<Gate>, s: Statuses, states: States, pending: seq<Gate>)
  {
    && s.Keys == Ids(gates)
    && states.Keys == Ids(gates)
    && (forall g :: g in pending <==> g in gates && states[g.id] == Pending)
    && (forall g :: g in pending ==> !NeedsPassed(g, s))
    && (forall g :: g in gates && states[g.id] != Pending ==> states[g.id] == Settled(s[g.id]))
  }

  ghost predicate SkipLog(gates: seq<Gate>, s: Statuses, states: States, log: seq<Event>)
  {
    && states.Keys == Ids(gates)
    && (forall g :: g in gates ==> (Start(g.id) in log <==> NeedsPassed(g, s)))
    && (forall g, t :: g in gates ==> (Observe(g.id, t) in log <==> states[g.id] == Settled(t)))
  }

  lemma EntryStatus(gates: seq<Gate>, execute: Executor, s: Statuses, rank: Ranks, states: States, results: Results,
                    g: Gate)
    requires Ranking(gates, rank) && Solves(gates, execute, s)
    requires OutcomesAgree(gates, execute, s, states, results) && NothingReady(gates, states)
      && RunningAgrees(gates, states, [])
    requires g in gates
    ensures states[g.id] == if NeedsPassed(g, s) then Settled(s[g.id]) else Pending
    ensures states[g.id] == EntryStates(gates, s)[g.id]
    ensures g.id in results <==> NeedsPassed(g, s)
    ensures g.id in results ==> results[g.id] == execute(g)
  {
    assert forall h :: h in gates ==> h !in [];
    assert GateOf(gates, g.id) == g;
    if states[g.id] == Pending {
      PendingIsBlocked(gates, execute, s, rank, states, results, g);
    }
  }

  /** However the run went, it reaches the skip phase in the one state the solution determines. */
  lemma EntryDetermined(gates: seq<Gate>, execute: Executor, s: Statuses, rank: Ranks, states: States, results: Results)
    requires Ranking(gates, rank) && Solves(gates, execute, s)
    requires OutcomesAgree(gates, execute, s, states, results) && NothingReady(gates, states)
      && RunningAgrees(gates, states, [])
    ensures states == EntryStates(gates, s) && results == EntryResults(gates, execute, s)
  {
    EntryKeys(gates, execute, s, states, results);
    hide *;
    forall id | id in states ensures states[id] == EntryStates(gates, s)[id] {
      EntryStatus(gates, execute, s, rank, states, results, GateOf(gates, id));
    }
    EntryResultsAgree(gates, execute, s, rank, states, results);
  }

  lemma EntryKeys(gates: seq<Gate>, execute: Executor, s: Statuses, states: States, results: Results)
    requires OutcomesAgree(gates, execute, s, states, results) && NothingReady(gates, states)
    requires RunningAgrees(gates, states, []) && Solves(gates, execute, s)
    ensures states.Keys == Ids(gates) && EntryStates(gates, s).Keys == Ids(gates)
  {}

  lemma EntryResultsAgree(gates: seq<Gate>, execute: Executor, s: Statuses, rank: Ranks, states: States,
                          results: Results)
    requires Ranking(gates, rank) && Solves(gates, execute, s)
    requires OutcomesAgree(gates, execute, s, states, results) && NothingReady(gates, states)
      && RunningAgrees(gates, states, [])
    ensures results == EntryResults(gates, execute, s)
  {
    hide Ranking, OutcomesAgree, NothingReady, RunningAgrees;
    forall id
      ensures id in results <==> id in EntryResults(gates, execute, s)
      ensures id in results ==> results[id] == EntryResults(gates, execute, s)[id]
    {
      EntryResultAt(gates, execute, s, rank, states, results, id);
    }
  }

  lemma EntryResultAt(gates: seq<Gate>, execute: Executor, s: Statuses, rank: Ranks, states: States, results: Results,
                      id: string)
    requires Ranking(gates, rank) && Solves(gates, execute, s)
    requires OutcomesAgree(gates, execute, s, states, results) && NothingReady(gates, states)
      && RunningAgrees(gates, states, [])
    ensures id in results <==> id in EntryResults(gates, execute, s)
    ensures id in results ==> results[id] == EntryResults(gates, execute, s)[id]
  {
    if id in Ids(gates) {
      EntryStatus(gates, execute, s, rank, states, results, GateOf(gates, id));
    }
  }

  lemma EntryKeeps(gates: seq<Gate>, execute: Executor, s: Statuses, rank: Ranks, states: States, results: Results,
                   log: seq<Event>)
    requires Ranking(gates, rank) && Solves(gates, execute, s)
    requires RunInv(gates, execute, s, states, results, [], log) && NothingReady(gates, states)
    ensures SkipInv(gates, s, states, PendingGates(gates, states)) && SkipLog(gates, s, states, log)
    ensures SettledKeys(states, results)
    ensures Drain(PendingGates(gates, states), states, results) == DrainedResults(gates, execute, s)
  {
    EntryDetermined(gates, execute, s, rank, states, results);
    EntryStatesKeep(gates, execute, s);
    EntryLogKeeps(gates, execute, s, states, log);
  }

  lemma EntryStatesKeep(gates: seq<Gate>, execute: Executor, s: Statuses)
    requires UniqueIds(gates) && Solves(gates, execute, s)
    ensures SkipInv(gates, s, EntryStates(gates, s), PendingGates(gates, EntryStates(gates, s)))
    ensures SettledKeys(EntryStates(gates, s), EntryResults(gates, execute, s))
  {
    forall g | g in gates
      ensures EntryStates(gates, s)[g.id] == if NeedsPassed(g, s) then Settled(s[g.id]) else Pending
    {
      assert GateOf(gates, g.id) == g;
    }
  }

  lemma EntryLogKeeps(gates: seq<Gate>, execute: Executor, s: Statuses, states: States, log: seq<Event>)
    requires UniqueIds(gates) && Solves(gates, execute, s)
    requires states == EntryStates(gates, s) && LogAgrees(gates, states, log)
    ensures SkipLog(gates, s, states, log)
  {
    forall g | g in gates ensures states[g.id] == if NeedsPassed(g, s) then Settled(s[g.id]) else Pending {
      assert GateOf(gates, g.id) == g;
    }
  }

  /** The validated graph does not stall: some pending gate has a failed or skipped need. */
  lemma {:induction false} SomeBlocked(gates: seq<Gate>, execute: Executor, s: Statuses, rank: Ranks,
                                       states: States, pending: seq<Gate>, g: Gate)
    requires Ranking(gates, rank) && Solves(gates, execute, s) && SkipInv(gates, s, states, pending) && g in pending
    ensures exists h :: h in pending && IsBlocked(h, states)
    decreases rank[g.id]
  {
    var n :| n in g.needs && !(n in s && s[n] == Passed);
    var h := GateOf(gates, n);
    if states[n] == Pending {
      SomeBlocked(gates, execute, s, rank, states, pending, h);
    } else {
      assert IsBlocker(states, n);
    }
  }

  lemma SkipKeeps(gates: seq<Gate>, execute: Executor, s: Statuses, states: States, results: Results,
                  pending: seq<Gate>, g: Gate, r: GateResult)
    requires IdsIdentify(gates) && Solves(gates, execute, s) && SkipInv(gates, s, states, pending) && g in pending
    requires SettledKeys(states, results)
    ensures SkipInv(gates, s, states[g.id := Settled(Skipped)], Without(pending, g))
    ensures SettledKeys(states[g.id := Settled(Skipped)], results[g.id := r])
  {
    forall h | h in gates && h != g ensures h.id != g.id {}
  }

  lemma SkipLogGrows(gates: seq<Gate>, s: Statuses, states: States, pending: seq<Gate>, log: seq<Event>, g: Gate)
    requires IdsIdentify(gates) && s.Keys == Ids(gates)
    requires SkipInv(gates, s, states, pending) && SkipLog(gates, s, states, log) && g in pending
    ensures SkipLog(gates, s, states[g.id := Settled(Skipped)], log + [Observe(g.id, Skipped)])
  {
    forall h | h in gates && h != g ensures h.id != g.id {}
  }

  lemma AllStartedObserved(gates: seq<Gate>, s: Statuses, states: States, pending: seq<Gate>, log: seq<Event>)
    requires s.Keys == Ids(gates) && SkipInv(gates, s, states, pending) && SkipLog(gates, s, states, log)
    ensures InFlight(gates, log) == {}
  {
    forall h | h in gates && Start(h.id) in log ensures Observed(log, h.id) {
      assert h !in pending && states[h.id] == Settled(s[h.id]);
      assert Observe(h.id, s[h.id]) in log;
    }
  }

  lemma UnstartedNotReady(gates: seq<Gate>, s: Statuses, states: States, pending: seq<Gate>, log: seq<Event>)
    requires KnownNeeds(gates) && s.Keys == Ids(gates)
    requires SkipInv(gates, s, states, pending) && SkipLog(gates, s, states, log)
    ensures NoneReady(gates, log)
  {
    forall h | h in gates ensures !Ready(log, h) {
      if Ready(log, h) {
        forall n | n in h.needs ensures n in s && s[n] == Passed {
          var k := GateOf(gates, n);
          assert Observe(k.id, Passed) in log;
          assert states[k.id] == Settled(Passed);
        }
        assert NeedsPassed(h, s);
      }
    }
  }

  lemma BlockedSawBlocker(gates: seq<Gate>, s: Statuses, states: States, log: seq<Event>, g: Gate)
    requires states.Keys == Ids(gates) && SkipLog(gates, s, states, log) && IsBlocked(g, states)
    ensures SawBlocker(log, g)
  {
    var n :| n in g.needs && IsBlocker(states, n);
    var h := GateOf(gates, n);
    assert Observe(h.id, states[n].status) in log;
  }

  lemma SkipIsLegal(gates: seq<Gate>, s: Statuses, limit: int, states: States, pending: seq<Gate>, log: seq<Event>,
                    g: Gate)
    requires IdsIdentify(gates) && KnownNeeds(gates) && s.Keys == Ids(gates)
    requires SkipInv(gates, s, states, pending) && SkipLog(gates, s, states, log) && Legal(gates, limit, log)
    requires g in pending && IsBlocked(g, states)
    ensures Legal(gates, limit, log + [Observe(g.id, Skipped)])
  {
    AllStartedObserved(gates, s, states, pending, log);
    UnstartedNotReady(gates, s, states, pending, log);
    BlockedSawBlocker(gates, s, states, log, g);
    assert !Observed(log, g.id) by {
      forall t ensures Observe(g.id, t) !in log { assert states[g.id] != Settled(t); }
    }
    LegalSnoc(gates, limit, log, Observe(g.id, Skipped));
  }

  // ----- what the results say

  /**
   * A gate that ran returns its executor's result. A skipped one names, among its
   * needs, only ones that failed or were skipped: at least one, and every one that
   * ran without passing.
   */
  ghost predicate Explains(gates: seq<Gate>, execute: Executor, s: Statuses, g: Gate, r: GateResult)
  {
    if NeedsPassed(g, s) then r == execute(g)
    else
      && r.gate == g && r.status == Skipped && r.blockedBy != []
      && (forall n :: n in r.blockedBy ==> n in g.needs && n in s && s[n] != Passed)
      && (forall h :: h in gates && h.id in g.needs && NeedsPassed(h, s) && h.id in s && s[h.id] != Passed ==>
            h.id in r.blockedBy)
  }

  ghost predicate AllExplained(gates: seq<Gate>, execute: Executor, s: Statuses, states: States, results: Results)
  {
    && states.Keys == Ids(gates)
    && forall g :: g in gates && states[g.id] != Pending ==>
         g.id in results && Explains(gates, execute, s, g, results[g.id])
  }

  /** Gates that ran have settled by the time the skip phase starts. */
  ghost predicate RanSettled(gates: seq<Gate>, s: Statuses, states: States) {
    && states.Keys == Ids(gates)
    && forall g :: g in gates && NeedsPassed(g, s) ==> states[g.id] != Pending
  }

  lemma SkipExplains(gates: seq<Gate>, execute: Executor, s: Statuses, states: States, pending: seq<Gate>, g: Gate)
    requires SkipInv(gates, s, states, pending) && RanSettled(gates, s, states) && g in pending && IsBlocked(g, states)
    ensures Explains(gates, execute, s, g, SkipResult(g, states))
  {
    var b := Blockers(g.needs, states);
    forall n | n in b ensures n in s && s[n] != Passed {
      var h := GateOf(gates, n);
    }
    var n :| n in g.needs && IsBlocker(states, n);
    assert n in b;
  }

  lemma ExplainedKeeps(gates: seq<Gate>, execute: Executor, s: Statuses, states: States, results: Results, g: Gate,
                       r: GateResult)
    requires IdsIdentify(gates) && g in gates && Explains(gates, execute, s, g, r)
    requires AllExplained(gates, execute, s, states, results) && RanSettled(gates, s, states)
    ensures AllExplained(gates, execute, s, states[g.id := Settled(Skipped)], results[g.id := r])
    ensures RanSettled(gates, s, states[g.id := Settled(Skipped)])
  {
    forall h | h in gates && h != g ensures h.id != g.id {}
  }

  lemma {:induction false} DrainExplains(gates: seq<Gate>, execute: Executor, s: Statuses, rank: Ranks,
                                         states: States, results: Results, pending: seq<Gate>)
    requires Ranking(gates, rank) && IdsIdentify(gates) && Solves(gates, execute, s)
    requires SkipInv(gates, s, states, pending) && SettledKeys(states, results) && RanSettled(gates, s, states)
    requires AllExplained(gates, execute, s, states, results)
    ensures forall g :: g in gates ==>
      g.id in Drain(pending, states, results) && Explains(gates, execute, s, g, Drain(pending, states, results)[g.id])
    decreases |pending|
  {
    if pending == [] {
      forall g | g in gates ensures states[g.id] != Pending { assert g !in pending; }
    } else {
      hide SkipInv, RanSettled, AllExplained, SettledKeys, Ranking, IdsIdentify, Solves, Explains;
      SomeBlocked(gates, execute, s, rank, states, pending, pending[0]);
      var g := FindBlocked(pending, states).value;
      var r := SkipResult(g, states);
      SkipExplains(gates, execute, s, states, pending, g);
      SkipKeeps(gates, execute, s, states, results, pending, g, r);
      ExplainedKeeps(gates, execute, s, states, results, g, r);
      DrainExplains(gates, execute, s, rank, states[g.id := Settled(Skipped)], results[g.id := r], Without(pending, g));
    }
  }

  lemma EntryExplained(gates: seq<Gate>, execute: Executor, s: Statuses)
    requires UniqueIds(gates) && Solves(gates, execute, s)
    ensures IdsIdentify(gates)
    ensures SkipInv(gates, s, EntryStates(gates, s), PendingGates(gates, EntryStates(gates, s)))
    ensures SettledKeys(EntryStates(gates, s), EntryResults(gates, execute, s))
    ensures AllExplained(gates, execute, s, EntryStates(gates, s), EntryResults(gates, execute, s))
    ensures RanSettled(gates, s, EntryStates(gates, s))
  {
    EntryStatesKeep(gates, execute, s);
    forall g | g in gates ensures GateOf(gates, g.id) == g {}
  }

  /** Every returned result carries the gate's final status and explains a skip. */
  lemma ResultsExplain(gates: seq<Gate>, execute: Executor)
    requires WellFormed(gates)
    ensures Ids(gates) <= FinalResults(gates, execute).Keys
    ensures forall g :: g in gates ==>
      Explains(gates, execute, FinalStatuses(gates, execute), g, FinalResults(gates, execute)[g.id])
    ensures forall g :: g in gates ==> FinalResults(gates, execute)[g.id].status == FinalStatuses(gates, execute)[g.id]
  {
    var s := FinalStatuses(gates, execute);
    var rank := RankingExists(gates);
    EntryExplained(gates, execute, s);
    hide SkipInv, AllExplained, RanSettled, SettledKeys, Ranking, Acyclic, Explains, IdsIdentify, Drain, PendingGates;
    DrainExplains(gates, execute, s, rank, EntryStates(gates, s), EntryResults(gates, execute, s),
                  PendingGates(gates, EntryStates(gates, s)));
    hide EntryStates, EntryResults, Solves;
    forall g | g in gates ensures FinalResults(gates, execute)[g.id].status == s[g.id] {
      ExplainsStatus(gates, execute, s, g, FinalResults(gates, execute)[g.id]);
    }
  }

  lemma ExplainsStatus(gates: seq<Gate>, execute: Executor, s: Statuses, g: Gate, r: GateResult)
    requires Solves(gates, execute, s) && g in gates && Explains(gates, execute, s, g, r)
    ensures g.id in s && r.status == s[g.id]
  {}

  /** `gates.map(gate => results.get(gate.id))` */
  function Collect(gates: seq<Gate>, results: Results): seq<GateResult>
    requires Ids(gates) <= results.Keys
  {
    seq(|gates|, i requires 0 <= i < |gates| => assert gates[i].id in Ids(gates); results[gates[i].id])
  }

  /** What `runGates` returns for these gates, in their order. */
  ghost function ExpectedResults(gates: seq<Gate>, execute: Executor): seq<GateResult>
    requires WellFormed(gates)
  {
    ResultsExplain(gates, execute);
    Collect(gates, FinalResults(gates, execute))
  }

  // ----- the run in list order

  lemma {:induction false} StartIsFirst(gates: seq<Gate>, states: States, log: seq<Event>, g: Gate)
    requires KnownNeeds(gates) && states.Keys == Ids(gates) && LogAgrees(gates, states, log)
    requires FindReady(gates, states) == Some(g)
    ensures FirstInList(gates, log, Start(g.id))
  {
    var i :| FirstToStart(gates, states, g, i);
    hide FindReady, LogAgrees, Ready;
    forall j | 0 <= j < i ensures !CouldGo(gates[j], log, Start(g.id)) {
      ReadyAgrees(gates, states, log, gates[j]);
    }
  }

  /** A settlement may come in any order. */
  lemma {:induction false} SettleIsFirst(gates: seq<Gate>, log: seq<Event>, g: Gate, status: Status)
    requires g in gates && Start(g.id) in log
    ensures FirstInList(gates, log, Observe(g.id, status))
  {
    var i :| 0 <= i < |gates| && gates[i] == g;
  }

  /** The first blocked one among the pending gates is the first blocked and pending one of the list. */
  lemma {:induction false} FirstOfPending(gates: seq<Gate>, states: States, all: States, g: Gate) returns (i: nat)
    requires FindBlocked(PendingGates(gates, states), all) == Some(g)
    ensures i < |gates| && gates[i] == g
    ensures forall j :: 0 <= j < i && Waits(gates[j], states) ==> !IsBlocked(gates[j], all)
  {
    hide *;
    NonePending(states, all);
    PendingCons(gates, states);
    var h, rest := gates[0], PendingGates(gates[1..], states);
    BlockedFirst(h, rest, states, all);
    if Waits(h, states) && IsBlocked(h, all) {
      i := 0;
    } else {
      var k := FirstOfPending(gates[1..], states, all, g);
      forall j | 0 <= j < k + 1 && Waits(gates[j], states) ensures !IsBlocked(gates[j], all) {
        if j > 0 { assert gates[j] == gates[1..][j - 1]; }
      }
      i := k + 1;
    }
  }

  lemma NonePending(states: States, all: States)
    ensures FindBlocked(PendingGates([], states), all) == None
  {}

  lemma {:induction false} BlockedFirst(h: Gate, rest: seq<Gate>, states: States, all: States)
    ensures FindBlocked((if Waits(h, states) then [h] else []) + rest, all)
         == if Waits(h, states) && IsBlocked(h, all) then Some(h) else FindBlocked(rest, all)
  {
    hide Waits, IsBlocked;
    assert ([h] + rest)[1..] == rest && [] + rest == rest;
  }

  lemma {:induction false} SkipIsFirst(gates: seq<Gate>, s: Statuses, states: States, log: seq<Event>, g: Gate)
    requires KnownNeeds(gates) && SkipLog(gates, s, states, log)
    requires FindBlocked(PendingGates(gates, states), states) == Some(g)
    requires forall h :: h in gates ==> states[h.id] == Pending || states[h.id].Settled?
    ensures FirstInList(gates, log, Observe(g.id, Skipped))
  {
    var i := FirstOfPending(gates, states, states, g);
    hide FindBlocked, PendingGates;
    forall j | 0 <= j < i ensures !CouldGo(gates[j], log, Observe(g.id, Skipped)) {
      if states[gates[j].id].Settled? {
        assert Observe(gates[j].id, states[gates[j].id].status) in log;
      } else {
        BlockedAgrees(gates, s, states, log, gates[j]);
      }
    }
  }

  lemma {:induction false} BadAgrees(gates: seq<Gate>, s: Statuses, states: States, log: seq<Event>, n: string)
    requires SkipLog(gates, s, states, log) && n in Ids(gates)
    ensures SeenBad(log, n) <==> IsBlocker(states, n)
  {
    var h := GateOf(gates, n);
    if t :| t != Passed && Observe(n, t) in log { assert states[h.id] == Settled(t); }
    if IsBlocker(states, n) { assert Observe(h.id, states[n].status) in log; }
  }

  lemma {:induction false} BlockedAgrees(gates: seq<Gate>, s: Statuses, states: States, log: seq<Event>, g: Gate)
    requires KnownNeeds(gates) && SkipLog(gates, s, states, log) && g in gates
    ensures SawBlocker(log, g) <==> IsBlocked(g, states)
  {
    hide SkipLog, IsBlocker;
    forall n | n in g.needs ensures SeenBad(log, n) <==> IsBlocker(states, n) {
      BadAgrees(gates, s, states, log, n);
    }
    if n, t :| n in g.needs && t != Passed && Observe(n, t) in log { assert SeenBad(log, n); }
    if n :| n in g.needs && IsBlocker(states, n) { assert SeenBad(log, n); }
  }

  ghost function Later(at: seq<nat>): seq<nat> {
    seq(|at|, i requires 0 <= i < |at| => at[i] + 1)
  }

  lemma LaterHas(at: seq<nat>, i: nat)
    ensures i in Later(at) <==> i > 0 && i - 1 in at
  {
    if i > 0 && i - 1 in at {
      var j :| 0 <= j < |at| && at[j] == i - 1;
      assert Later(at)[j] == i;
    }
  }

  lemma PicksLater(picked: seq<string>, xs: seq<string>, at: seq<nat>)
    requires xs != [] && Picks(picked, xs[1..], at)
    ensures Picks(picked, xs, Later(at)) && Picks([xs[0]] + picked, xs, [0] + Later(at))
  {
    assert Picks(picked, xs, Later(at));
  }

  /** The filtered needs stand at the places of the blockers. */
  lemma {:induction false} BlockersPicked(needs: seq<string>, states: States) returns (at: seq<nat>)
    ensures Picks(Blockers(needs, states), needs, at)
    ensures forall i: nat :: i in at <==> i < |needs| && IsBlocker(states, needs[i])
  {
    hide IsBlocker;
    if needs == [] {
      at := [];
    } else {
      var rest := BlockersPicked(needs[1..], states);
      PicksLater(Blockers(needs[1..], states), needs, rest);
      assert [] + Blockers(needs[1..], states) == Blockers(needs[1..], states);
      hide Picks;
      at := if IsBlocker(states, needs[0]) then [0] + Later(rest) else Later(rest);
      hide Blockers, Later;
      forall i: nat ensures i in at <==> i < |needs| && IsBlocker(states, needs[i]) {
        LaterHas(rest, i);
      }
    }
  }

  lemma {:induction false} SkipReports(gates: seq<Gate>, execute: Executor, s: Statuses, states: States,
                                       log: seq<Event>, g: Gate)
    requires KnownNeeds(gates) && SkipLog(gates, s, states, log) && g in gates && !NeedsPassed(g, s)
    ensures ReportedAt(execute, log + [Observe(g.id, Skipped)], |log|, g, SkipResult(g, states))
  {
    var longer := log + [Observe(g.id, Skipped)];
    assert longer[..|log|] == log && Start(g.id) !in log;
    var at := BlockersPicked(g.needs, states);
    hide SkipLog, IsBlocker, Blockers;
    forall i | 0 <= i < |g.needs| ensures i in at <==> SeenBad(log, g.needs[i]) {
      assert g.needs[i] in g.needs;
      BadAgrees(gates, s, states, log, g.needs[i]);
    }
  }

  lemma {:induction false} SettleReports(execute: Executor, log: seq<Event>, g: Gate, status: Status)
    requires Start(g.id) in log
    ensures ReportedAt(execute, log + [Observe(g.id, status)], |log|, g, execute(g))
  {
    assert (log + [Observe(g.id, status)])[..|log|] == log;
  }

  /** Skipping a gate takes it out of the pending ones and leaves their order. */
  lemma {:induction false} PendingShrinks(gates: seq<Gate>, all: seq<Gate>, states: States, g: Gate)
    requires IdsIdentify(all) && g in all && forall h :: h in gates ==> h in all
    ensures Without(PendingGates(gates, states), g) == PendingGates(gates, states[g.id := Settled(Skipped)])
  {
    if gates != [] {
      PendingShrinks(gates[1..], all, states, g);
      hide PendingGates;
      PendingCons(gates, states);
      PendingCons(gates, states[g.id := Settled(Skipped)]);
      WithoutCons(gates[0], PendingGates(gates[1..], states), g);
    }
  }

  lemma PendingCons(gates: seq<Gate>, states: States)
    requires gates != []
    ensures PendingGates(gates, states)
         == (if Waits(gates[0], states) then [gates[0]] else []) + PendingGates(gates[1..], states)
  {}

  lemma WithoutCons(h: Gate, rest: seq<Gate>, g: Gate)
    ensures Without([h] + rest, g) == (if h == g then [] else [h]) + Without(rest, g)
    ensures [] + rest == rest && [] + Without(rest, g) == Without(rest, g)
  {
    assert ([h] + rest)[1..] == rest;
  }

  // ----- the run

  lemma NoneFound(gates: seq<Gate>, execute: Executor, s: Statuses, states: States, results: Results,
                  running: seq<Gate>, log: seq<Event>)
    requires RunInv(gates, execute, s, states, results, running, log) && FindReady(gates, states).None?
    ensures NothingReady(gates, states)
  {
    assert forall g :: g in gates && states[g.id] == Pending && DependenciesPassed(g, states) ==> CanStart(g, states);
  }

  lemma StartFound(gates: seq<Gate>, execute: Executor, s: Statuses, states: States, results: Results,
                   running: seq<Gate>, log: seq<Event>, g: Gate)
    requires RunInv(gates, execute, s, states, results, running, log) && KnownNeeds(gates)
    requires FindReady(gates, states) == Some(g)
    ensures g in gates && CanStart(g, states) && FirstInList(gates, log, Start(g.id))
  {
    StartIsFirst(gates, states, log, g);
  }

  lemma SettleFound(gates: seq<Gate>, execute: Executor, s: Statuses, states: States, results: Results,
                    running: seq<Gate>, log: seq<Event>, k: nat)
    requires RunInv(gates, execute, s, states, results, running, log) && k < |running| && IdsIdentify(gates)
    requires InListOrder(gates, log) && AllReported(gates, execute, log, results)
    ensures var g, r := running[k], execute(running[k]);
            && InListOrder(gates, log + [Observe(g.id, r.status)])
            && AllReported(gates, execute, log + [Observe(g.id, r.status)], results[g.id := r])
  {
    var g, r := running[k], execute(running[k]);
    assert g in running && g in gates && Start(g.id) in log;
    hide RunInv, InListOrder, AllReported, FirstInList;
    SettleIsFirst(gates, log, g, r.status);
    OrderSnoc(gates, log, Observe(g.id, r.status));
    SettleReports(execute, log, g, r.status);
    OneMoreReported(gates, execute, log, results, Observe(g.id, r.status), g, r);
  }

  lemma SkipFound(gates: seq<Gate>, execute: Executor, s: Statuses, states: States, results: Results, log: seq<Event>,
                  g: Gate)
    requires SkipInv(gates, s, states, PendingGates(gates, states)) && SkipLog(gates, s, states, log)
    requires KnownNeeds(gates) && IdsIdentify(gates)
    requires InListOrder(gates, log) && AllReported(gates, execute, log, results)
    requires FindBlocked(PendingGates(gates, states), states) == Some(g)
    ensures InListOrder(gates, log + [Observe(g.id, Skipped)])
    ensures AllReported(gates, execute, log + [Observe(g.id, Skipped)], results[g.id := SkipResult(g, states)])
    ensures Without(PendingGates(gates, states), g) == PendingGates(gates, states[g.id := Settled(Skipped)])
  {
    var pending := PendingGates(gates, states);
    assert g in pending && g in gates && !NeedsPassed(g, s);
    assert forall h :: h in gates ==> states[h.id] == Pending || states[h.id].Settled?;
    hide SkipInv, SkipLog, InListOrder, AllReported, FirstInList, SkipResult, PendingGates, FindBlocked;
    SkipIsFirst(gates, s, states, log, g);
    OrderSnoc(gates, log, Observe(g.id, Skipped));
    SkipReports(gates, execute, s, states, log, g);
    OneMoreReported(gates, execute, log, results, Observe(g.id, Skipped), g, SkipResult(g, states));
    PendingShrinks(gates, gates, states, g);
  }

  /** Start gates, first ready one first, until the pool is full or nothing is ready. */
  method FillPool(gates: seq<Gate>, maxActive: int, ghost execute: Executor, ghost s: Statuses,
                  states: States, ghost results: Results, running: seq<Gate>, log: seq<Event>)
    returns (states': States, running': seq<Gate>, log': seq<Event>, madeProgress: bool)
    requires IdsIdentify(gates) && KnownNeeds(gates) && Solves(gates, execute, s)
    requires RunInv(gates, execute, s, states, results, running, log) && Legal(gates, maxActive, log)
    requires InListOrder(gates, log) && AllReported(gates, execute, log, results)
    requires |running| <= maxActive
    ensures RunInv(gates, execute, s, states', results, running', log') && Legal(gates, maxActive, log')
    ensures InListOrder(gates, log') && AllReported(gates, execute, log', results)
    ensures |running'| == maxActive || (|running'| < maxActive && NothingReady(gates, states'))
    ensures madeProgress ==> 2 * |PendingSet(states')| + |running'| < 2 * |PendingSet(states)| + |running|
    ensures !madeProgress ==> states' == states && running' == running && log' == log
  {
    hide IdsIdentify, KnownNeeds, Solves, RunInv, Legal, InListOrder, AllReported, FirstInList;
    states', running', log', madeProgress := states, running, log, false;
    while |running'| < maxActive
      invariant |running'| <= maxActive
      invariant RunInv(gates, execute, s, states', results, running', log') && Legal(gates, maxActive, log')
      invariant InListOrder(gates, log') && AllReported(gates, execute, log', results)
      invariant madeProgress ==> 2 * |PendingSet(states')| + |running'| < 2 * |PendingSet(states)| + |running|
      invariant !madeProgress ==> states' == states && running' == running && log' == log
      decreases maxActive - |running'|
    {
      var ready := FindReady(gates, states');
      if ready.None? {
        NoneFound(gates, execute, s, states', results, running', log');
        return;
      }
      var g := ready.value;
      StartFound(gates, execute, s, states', results, running', log', g);
      OrderSnoc(gates, log', Start(g.id));
      AllReportedGrows(gates, execute, log', results, Start(g.id));
      assert g.id in PendingSet(states');
      StartKeeps(gates, execute, s, maxActive, states', results, running', log', g);
      assert PendingSet(states'[g.id := Running]) == PendingSet(states') - {g.id};
      states' := states'[g.id := Running];
      running' := running' + [g];
      log' := log' + [Start(g.id)];
      madeProgress := true;
    }
  }

  ghost function PendingSet(states: States): set<string> {
    set id | id in states && states[id] == Pending
  }

  /** Skip what can never run; the stalled answer never comes. */
  method SkipPending(gates: seq<Gate>, ghost maxActive: int, ghost execute: Executor, ghost s: Statuses,
                     ghost rank: Ranks,
                     states: States, results: Results, log: seq<Event>)
    returns (stalled: bool, results': Results, log': seq<Event>)
    requires Ranking(gates, rank) && IdsIdentify(gates) && KnownNeeds(gates) && Solves(gates, execute, s)
    requires RunInv(gates, execute, s, states, results, [], log) && NothingReady(gates, states)
      && Legal(gates, maxActive, log)
    requires InListOrder(gates, log) && AllReported(gates, execute, log, results)
    ensures !stalled && results' == DrainedResults(gates, execute, s) && results'.Keys == Ids(gates)
    ensures Legal(gates, maxActive, log') && InListOrder(gates, log') && AllReported(gates, execute, log', results')
    ensures forall g :: g in gates ==> Observe(g.id, s[g.id]) in log'
  {
    hide IdsIdentify, Solves, SkipInv, SkipLog, SettledKeys, Legal, Ranking, RunInv, NothingReady, KnownNeeds;
    hide InListOrder, AllReported;
    EntryKeeps(gates, execute, s, rank, states, results, log);
    var states' := states;
    results', log' := results, log;
    var pending := PendingGates(gates, states);
    while pending != []
      invariant pending == PendingGates(gates, states')
      invariant SkipInv(gates, s, states', pending) && SkipLog(gates, s, states', log') && Legal(gates, maxActive, log')
      invariant InListOrder(gates, log') && AllReported(gates, execute, log', results')
      invariant Drain(pending, states', results') == DrainedResults(gates, execute, s)
      invariant SettledKeys(states', results')
      decreases |pending|
    {
      SomeBlocked(gates, execute, s, rank, states', pending, pending[0]);
      var blocked := FindBlocked(pending, states');
      if blocked.None? { return true, results', log'; }
      var g := blocked.value;
      var result := SkipResult(g, states');
      SkipKeeps(gates, execute, s, states', results', pending, g, result);
      SkipLogGrows(gates, s, states', pending, log', g);
      SkipIsLegal(gates, s, maxActive, states', pending, log', g);
      SkipFound(gates, execute, s, states', results', log', g);
      states', results' := states'[g.id := Settled(Skipped)], results'[g.id := result];
      log' := log' + [Observe(g.id, Skipped)];
      pending := Without(pending, g);
    }
    NothingPending(gates, s, states', results', log');
    return false, results', log';
  }

  ghost predicate SettledKeys(states: States, results: Results) {
    forall id :: id in results <==> id in states && states[id].Settled?
  }

  lemma NothingPending(gates: seq<Gate>, s: Statuses, states: States, results: Results, log: seq<Event>)
    requires SkipInv(gates, s, states, []) && SkipLog(gates, s, states, log) && SettledKeys(states, results)
    ensures results.Keys == Ids(gates)
    ensures forall g :: g in gates ==> Observe(g.id, s[g.id]) in log
  {
    forall g | g in gates ensures states[g.id] == Settled(s[g.id]) { assert g !in []; }
    forall id | id in states ensures id in results { var g := GateOf(gates, id); }
  }

  /** The log of a complete run: every gate observed, with its final status. */
  ghost predicate Complete(gates: seq<Gate>, execute: Executor, log: seq<Event>)
    requires WellFormed(gates)
  {
    forall g :: g in gates ==> Observe(g.id, FinalStatuses(gates, execute)[g.id]) in log
  }

  /**
   * `runGates`. A refused aggregate starts nothing. An accepted one always returns
   * the same results: neither the order in which gates settle nor `maxActive` shows,
   * and the stalled and missing-result errors are never thrown.
   */
  method RunGates(gates: seq<Gate>, maxActive: int, execute: Executor) returns (outcome: RunOutcome, log: seq<Event>)
    ensures outcome.InvalidGraph? <==> !WellFormed(gates)
    ensures outcome.InvalidGraph? ==> Refutes(gates, outcome.error) && log == []
    ensures outcome.InvalidConcurrency? <==> WellFormed(gates) && !(1 <= maxActive <= MAX_SAFE_INTEGER)
    ensures outcome.InvalidConcurrency? ==> log == []
    ensures WellFormed(gates) && 1 <= maxActive <= MAX_SAFE_INTEGER ==>
      && outcome == Finished(ExpectedResults(gates, execute))
      && Legal(gates, maxActive, log) && Complete(gates, execute, log) && InListOrder(gates, log)
      && |outcome.results| == |gates|
      && forall i :: 0 <= i < |gates| ==> Reported(execute, log, gates[i], outcome.results[i])
  {
    log := [];
    var error := ValidateGateGraph(gates);
    if error.Some? { return InvalidGraph(error.value), log; }
    if !(1 <= maxActive <= MAX_SAFE_INTEGER) { return InvalidConcurrency, log; }

    hide Solves, Ranking, Legal, Acyclic, ById, UniqueIds, InListOrder, Reported, AllReported, Collect;
    ghost var s := FinalStatuses(gates, execute);
    ghost var rank := RankingExists(gates);
    var stalled, results;
    stalled, results, log := Schedule(gates, maxActive, execute, s, rank);
    if stalled { return Stalled, log; }
    if !(Ids(gates) <= results.Keys) { return MissingResult, log; }
    CollectReports(gates, execute, log, results);
    outcome := Finished(Collect(gates, results));
  }

  lemma {:induction false} CollectReports(gates: seq<Gate>, execute: Executor, log: seq<Event>, results: Results)
    requires Ids(gates) <= results.Keys && AllReported(gates, execute, log, results)
    ensures |Collect(gates, results)| == |gates|
    ensures forall i :: 0 <= i < |gates| ==> Reported(execute, log, gates[i], Collect(gates, results)[i])
  {
    hide Reported;
    assert forall i :: 0 <= i < |gates| ==> gates[i].id in Ids(gates);
  }

  lemma InitialState(gates: seq<Gate>, execute: Executor, s: Statuses, limit: int)
    requires UniqueIds(gates)
    ensures IdsIdentify(gates)
    ensures RunInv(gates, execute, s, map id | id in Ids(gates) :: Pending, map[], [], [])
    ensures Legal(gates, limit, [])
  {}

  /** The scheduling loop of `runGates`. */
  method Schedule(gates: seq<Gate>, maxActive: int, execute: Executor, ghost s: Statuses, ghost rank: Ranks)
    returns (stalled: bool, results: Results, log: seq<Event>)
    requires Ranking(gates, rank) && KnownNeeds(gates) && Solves(gates, execute, s) && 1 <= maxActive
    ensures !stalled && results == DrainedResults(gates, execute, s) && results.Keys == Ids(gates)
    ensures Legal(gates, maxActive, log) && InListOrder(gates, log) && AllReported(gates, execute, log, results)
    ensures forall g :: g in gates ==> Observe(g.id, s[g.id]) in log
  {
    var states: States := map id | id in Ids(gates) :: Pending;
    var running: seq<Gate> := [];
    results, log := map[], [];
    InitialState(gates, execute, s, maxActive);
    assert InListOrder(gates, log) && AllReported(gates, execute, log, results);
    hide IdsIdentify, KnownNeeds, Solves, RunInv, Legal, Ranking, NothingReady, PendingSet, DrainedResults;
    hide InListOrder, AllReported;
    while true
      invariant |running| <= maxActive
      invariant RunInv(gates, execute, s, states, results, running, log) && Legal(gates, maxActive, log)
      invariant InListOrder(gates, log) && AllReported(gates, execute, log, results)
      decreases 2 * |PendingSet(states)| + |running|
    {
      var madeProgress;
      states, running, log, madeProgress := FillPool(gates, maxActive, execute, s, states, results, running, log);
      if running == [] {
        stalled, results, log := SkipPending(gates, maxActive, execute, s, rank, states, results, log);
        return;
      }
      if !madeProgress {
        var k :| 0 <= k < |running|;  // Promise.race
        var g := running[k];
        var result := execute(g);
        SettleKeeps(gates, execute, s, maxActive, states, results, running, log, k);
        RunningNotPending(gates, execute, s, states, results, running, log, k);
        SettleFound(gates, execute, s, states, results, running, log, k);
        running := running[..k] + running[k + 1..];
        states, results := states[g.id := Settled(result.status)], results[g.id := result];
        log := log + [Observe(g.id, result.status)];
      }
    }
  }

  lemma RunningNotPending(gates: seq<Gate>, execute: Executor, s: Statuses, states: States, results: Results,
                          running: seq<Gate>, log: seq<Event>, k: nat)
    requires RunInv(gates, execute, s, states, results, running, log) && k < |running|
    ensures running[k].id in states
    ensures forall status :: PendingSet(states[running[k].id := Settled(status)]) == PendingSet(states)
  {
    assert running[k] in gates && states[running[k].id] == Running;
  }

  /** `main`: the exit code of an aggregate. */
  function ExitCode(results: seq<GateResult>): int {
    if exists i | 0 <= i < |results| :: !results[i].gate.allowFailure && results[i].status != Passed then 1 else 0
  }

  /**
   * The aggregate succeeds exactly when every gate that may not fail passed, as did
   * everything it needs, directly or not. An allowed failure still fails a run whose
   * blocking gates depend on it.
   */
  lemma ExitCodeMeaning(gates: seq<Gate>, execute: Executor)
    requires WellFormed(gates) && forall g :: g in gates ==> execute(g).gate == g
    ensures ExitCode(ExpectedResults(gates, execute)) == 0 <==>
      forall g :: g in gates && !g.allowFailure ==> Succeeds(gates, execute, g)
  {
    forall i | 0 <= i < |gates|
      ensures ExpectedResults(gates, execute)[i].gate == gates[i]
      ensures ExpectedResults(gates, execute)[i].status == Passed <==> Succeeds(gates, execute, gates[i])
    {
      ResultMeaning(gates, execute, i);
    }
    ExitCodeByIndex(gates, execute, ExpectedResults(gates, execute));
  }

  lemma ExitCodeByIndex(gates: seq<Gate>, execute: Executor, results: seq<GateResult>)
    requires |results| == |gates|
    requires forall i :: 0 <= i < |gates| ==>
      results[i].gate == gates[i] && (results[i].status == Passed <==> Succeeds(gates, execute, gates[i]))
    ensures ExitCode(results) == 0 <==> forall g :: g in gates && !g.allowFailure ==> Succeeds(gates, execute, g)
  {
    hide Succeeds;
    if g: Gate :| g in gates && !g.allowFailure && !Succeeds(gates, execute, g) {
      var i :| 0 <= i < |gates| && gates[i] == g;
      assert !results[i].gate.allowFailure && results[i].status != Passed;
    }
  }

  ghost predicate Succeeds(gates: seq<Gate>, execute: Executor, g: Gate) {
    execute(g).status == Passed && AllTransitivePass(gates, execute, g.id)
  }

  lemma ResultMeaning(gates: seq<Gate>, execute: Executor, i: nat)
    requires WellFormed(gates) && i < |gates| && execute(gates[i]).gate == gates[i]
    ensures ExpectedResults(gates, execute)[i].gate == gates[i]
    ensures ExpectedResults(gates, execute)[i].status == Passed <==> Succeeds(gates, execute, gates[i])
  {
    ResultsExplain(gates, execute);
    FinalStatusByTransitiveNeeds(gates, execute, gates[i]);
  }
}

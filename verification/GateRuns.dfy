/**
 * All the runs that the scheduler's rules allow, whichever ready gate is started and
 * whichever running gate settles next: each can go on until every gate is observed, none
 * goes on for ever, and all of them end with the same statuses.
 */
module GateRuns {
  import opened GateGraph
  import opened GateOutcomes
  import opened GateScheduler

  /** A gate that was started reports what its executor says. */
  ghost predicate Faithful(gates: seq<Gate>, execute: Executor, log: seq<Event>) {
    forall k :: 0 <= k < |log| ==> FaithfulStep(gates, execute, log[..k], log[k])
  }

  ghost predicate FaithfulStep(gates: seq<Gate>, execute: Executor, log: seq<Event>, e: Event) {
    e.Observe? && Start(e.id) in log ==> forall g :: g in gates && g.id == e.id ==> e.status == execute(g).status
  }

  ghost predicate Run(gates: seq<Gate>, execute: Executor, limit: int, log: seq<Event>) {
    Legal(gates, limit, log) && Faithful(gates, execute, log)
  }

  // ----- all runs agree

  /** The event fits the statuses: what is observed is the gate's status, and what starts was due. */
  ghost predicate Fits(gates: seq<Gate>, s: Statuses, e: Event) {
    match e
    case Observe(id, status) => id in s && s[id] == status
    case Start(id) => forall g :: g in gates && g.id == id ==> NeedsPassed(g, s)
  }

  lemma {:induction false} EventFits(gates: seq<Gate>, execute: Executor, s: Statuses, limit: int, log: seq<Event>,
                                     k: nat)
    requires Solves(gates, execute, s) && Run(gates, execute, limit, log) && k < |log|
    ensures Fits(gates, s, log[k])
    decreases k
  {
    hide Legal, LegalStep, Solves, Fits, FaithfulStep;
    forall e | e in log[..k] ensures Fits(gates, s, e) {
      var j :| 0 <= j < k && log[j] == e;
      EventFits(gates, execute, s, limit, log, j);
    }
    LegalAt(gates, limit, log, k);
    StepFits(gates, execute, s, limit, log[..k], log[k]);
  }

  lemma {:induction false} StepFits(gates: seq<Gate>, execute: Executor, s: Statuses, limit: int, log: seq<Event>,
                                    e: Event)
    requires Solves(gates, execute, s) && forall x :: x in log ==> Fits(gates, s, x)
    requires LegalStep(gates, limit, log, e) && FaithfulStep(gates, execute, log, e)
    ensures Fits(gates, s, e)
  {
    hide NoneReady, InFlight;
    var g :| g in gates && g.id == e.id;
    if e.Start? {
      forall h | h in gates && h.id == e.id ensures NeedsPassed(h, s) {
        ReadyFits(gates, s, log, h);
      }
    } else if Start(e.id) in log {
      assert Fits(gates, s, Start(e.id));
    } else {
      BlockerFits(gates, s, log, g);
    }
  }

  lemma ReadyFits(gates: seq<Gate>, s: Statuses, log: seq<Event>, g: Gate)
    requires Ready(log, g) && forall x :: x in log ==> Fits(gates, s, x)
    ensures NeedsPassed(g, s)
  {
    forall n | n in g.needs ensures n in s && s[n] == Passed {
      assert Fits(gates, s, Observe(n, Passed));
    }
  }

  lemma BlockerFits(gates: seq<Gate>, s: Statuses, log: seq<Event>, g: Gate)
    requires SawBlocker(log, g) && forall x :: x in log ==> Fits(gates, s, x)
    ensures !NeedsPassed(g, s)
  {
    var n, status :| n in g.needs && status != Passed && Observe(n, status) in log;
    assert Fits(gates, s, Observe(n, status));
  }

  /**
   * Confluence: whatever two runs observe of one gate is the same, however differently
   * they were scheduled and whatever their pool sizes.
   */
  lemma {:induction false} RunsAgree(gates: seq<Gate>, execute: Executor, limitA: int, a: seq<Event>, limitB: int,
                                     b: seq<Event>, i: nat, j: nat)
    requires WellFormed(gates) && Run(gates, execute, limitA, a) && Run(gates, execute, limitB, b)
    requires i < |a| && j < |b| && a[i].Observe? && b[j].Observe? && a[i].id == b[j].id
    ensures a[i] == b[j]
  {
    hide Run;
    var s := FinalStatuses(gates, execute);
    EventFits(gates, execute, s, limitA, a, i);
    EventFits(gates, execute, s, limitB, b, j);
  }

  ghost predicate AllObserved(gates: seq<Gate>, log: seq<Event>) {
    forall g :: g in gates ==> Observed(log, g.id)
  }

  /** A run that has observed every gate has its final statuses, and has run exactly the gates that were due. */
  lemma {:induction false} FinishedRun(gates: seq<Gate>, execute: Executor, limit: int, log: seq<Event>)
    requires WellFormed(gates) && Run(gates, execute, limit, log) && AllObserved(gates, log)
    ensures Complete(gates, execute, log)
    ensures forall g :: g in gates ==> (Start(g.id) in log <==> NeedsPassed(g, FinalStatuses(gates, execute)))
  {
    hide Run, NeedsPassed, FinalStatuses, WellFormed, Complete;
    forall g | g in gates
      ensures Observe(g.id, FinalStatuses(gates, execute)[g.id]) in log
      ensures Start(g.id) in log <==> NeedsPassed(g, FinalStatuses(gates, execute))
    {
      GateOfFinishedRun(gates, execute, limit, log, g);
    }
    CompleteByGate(gates, execute, log);
  }

  lemma CompleteByGate(gates: seq<Gate>, execute: Executor, log: seq<Event>)
    requires WellFormed(gates)
    requires forall g :: g in gates ==> Observe(g.id, FinalStatuses(gates, execute)[g.id]) in log
    ensures Complete(gates, execute, log)
  {}

  lemma {:induction false} GateOfFinishedRun(gates: seq<Gate>, execute: Executor, limit: int, log: seq<Event>, g: Gate)
    requires WellFormed(gates) && Run(gates, execute, limit, log) && g in gates && Observed(log, g.id)
    ensures Observe(g.id, FinalStatuses(gates, execute)[g.id]) in log
    ensures Start(g.id) in log <==> NeedsPassed(g, FinalStatuses(gates, execute))
  {
    var s := FinalStatuses(gates, execute);
    hide WellFormed, FinalStatuses, Solves, NeedsPassed, Run;
    var status :| Observe(g.id, status) in log;
    var k :| 0 <= k < |log| && log[k] == Observe(g.id, status);
    EventFits(gates, execute, s, limit, log, k);
    if Start(g.id) in log {
      var j :| 0 <= j < |log| && log[j] == Start(g.id);
      EventFits(gates, execute, s, limit, log, j);
    } else {
      ObservedUnstarted(gates, execute, s, limit, log, k, g);
    }
  }

  lemma {:induction false} ObservedUnstarted(gates: seq<Gate>, execute: Executor, s: Statuses, limit: int,
                                             log: seq<Event>, k: nat, g: Gate)
    requires Solves(gates, execute, s) && Run(gates, execute, limit, log)
    requires k < |log| && log[k].Observe? && log[k].id == g.id && g in gates && Start(g.id) !in log
    ensures !NeedsPassed(g, s)
  {
    hide Solves, Fits, Legal, NoneReady, InFlight, FaithfulStep, NeedsPassed;
    forall e | e in log[..k] ensures Fits(gates, s, e) {
      var j :| 0 <= j < k && log[j] == e;
      EventFits(gates, execute, s, limit, log, j);
    }
    LegalAt(gates, limit, log, k);
    BlockerFits(gates, s, log[..k], g);
  }

  /** The log that `runGates` leaves behind is one of these runs. */
  lemma {:induction false} CompleteIsRun(gates: seq<Gate>, execute: Executor, limit: int, log: seq<Event>)
    requires WellFormed(gates) && Legal(gates, limit, log) && Complete(gates, execute, log)
    ensures Run(gates, execute, limit, log)
  {
    hide Legal, LegalStep, WellFormed, Complete, Solves, NeedsPassed;
    var s := FinalStatuses(gates, execute);
    StatusKeys(gates, execute);
    forall k, g | 0 <= k < |log| && log[k].Observe? && Start(log[k].id) in log[..k] && g in gates && g.id == log[k].id
      ensures log[k].status == execute(g).status
    {
      CompleteHas(gates, execute, log, g);
      ObservedOnce(gates, limit, log, g.id, log[k].status, s[g.id]);
      var j :| 0 <= j < k && log[j] == Start(g.id);
      StartedWasDue(gates, execute, limit, log, j, g);
      SolutionAt(gates, execute, s, g);
    }
  }

  lemma StatusKeys(gates: seq<Gate>, execute: Executor)
    requires WellFormed(gates)
    ensures FinalStatuses(gates, execute).Keys == Ids(gates)
    ensures Solves(gates, execute, FinalStatuses(gates, execute))
  {}

  lemma CompleteHas(gates: seq<Gate>, execute: Executor, log: seq<Event>, g: Gate)
    requires WellFormed(gates) && Complete(gates, execute, log) && g in gates
    ensures Observe(g.id, FinalStatuses(gates, execute)[g.id]) in log
  {}

  lemma SolutionAt(gates: seq<Gate>, execute: Executor, s: Statuses, g: Gate)
    requires Solves(gates, execute, s) && g in gates
    ensures s[g.id] == if NeedsPassed(g, s) then execute(g).status else Skipped
  {}

  lemma {:induction false} StartedWasDue(gates: seq<Gate>, execute: Executor, limit: int, log: seq<Event>, j: nat,
                                         g: Gate)
    requires WellFormed(gates) && Legal(gates, limit, log) && Complete(gates, execute, log)
    requires j < |log| && log[j] == Start(g.id) && g in gates
    ensures NeedsPassed(g, FinalStatuses(gates, execute))
  {
    hide Legal, LegalStep, Complete, Solves, Acyclic, UniqueIds, ById;
    StatusKeys(gates, execute);
    var s := FinalStatuses(gates, execute);
    forall n | n in g.needs ensures n in s && s[n] == Passed {
      LegalNeedsFirst(gates, limit, log, j, g, n);
      CompleteHas(gates, execute, log, GateOf(gates, n));
      ObservedOnce(gates, limit, log, n, Passed, s[n]);
    }
  }

  // ----- no run is stuck

  /** While some gate is unobserved, the run can go on, so no reachable state stalls. */
  lemma {:induction false} RunProgresses(gates: seq<Gate>, execute: Executor, limit: int, log: seq<Event>)
    returns (e: Event)
    requires WellFormed(gates) && 1 <= limit && Run(gates, execute, limit, log) && !AllObserved(gates, log)
    ensures Run(gates, execute, limit, log + [e])
  {
    hide Legal, Faithful, FaithfulStep, Ready, Observed, LegalStep;
    LegalBoundsConcurrency(gates, limit, log, |log|);
    assert log[..|log|] == log;
    if InFlight(gates, log) != {} && (|InFlight(gates, log)| == limit || NoneReady(gates, log)) {
      e := Settling(gates, execute, limit, log);
    } else if !NoneReady(gates, log) {
      e := Starting(gates, execute, limit, log);
    } else {
      e := Skipping(gates, execute, limit, log);
    }
    LegalSnoc(gates, limit, log, e);
    FaithfulSnoc(gates, execute, log, e);
  }

  lemma {:induction false} FaithfulSnoc(gates: seq<Gate>, execute: Executor, log: seq<Event>, e: Event)
    requires Faithful(gates, execute, log) && FaithfulStep(gates, execute, log, e)
    ensures Faithful(gates, execute, log + [e])
  {
    hide FaithfulStep;
    var longer := log + [e];
    forall k | 0 <= k < |longer| ensures FaithfulStep(gates, execute, longer[..k], longer[k]) {
      assert longer[..k] == log[..k];
      assert k == |log| ==> log[..k] == log;
    }
  }

  lemma {:induction false} Settling(gates: seq<Gate>, execute: Executor, limit: int, log: seq<Event>) returns (e: Event)
    requires UniqueIds(gates) && InFlight(gates, log) != {}
      && (|InFlight(gates, log)| == limit || NoneReady(gates, log))
    ensures LegalStep(gates, limit, log, e) && FaithfulStep(gates, execute, log, e)
  {
    var id :| id in InFlight(gates, log);
    var g :| g in gates && g.id == id && Start(g.id) in log && !Observed(log, g.id);
    e := Observe(id, execute(g).status);
  }

  lemma {:induction false} Starting(gates: seq<Gate>, execute: Executor, limit: int, log: seq<Event>) returns (e: Event)
    requires UniqueIds(gates) && |InFlight(gates, log)| < limit && !NoneReady(gates, log)
    ensures LegalStep(gates, limit, log, e) && FaithfulStep(gates, execute, log, e)
  {
    hide InFlight;
    var g :| g in gates && Ready(log, g);
    e := Start(g.id);
  }

  /** The unobserved gate of lowest rank has a need that was seen not to pass. */
  lemma {:induction false} Skipping(gates: seq<Gate>, execute: Executor, limit: int, log: seq<Event>) returns (e: Event)
    requires WellFormed(gates) && InFlight(gates, log) == {} && NoneReady(gates, log) && !AllObserved(gates, log)
    ensures LegalStep(gates, limit, log, e) && FaithfulStep(gates, execute, log, e)
  {
    var rank := RankingExists(gates);
    hide Acyclic, ById;
    hide Observed, InFlight, NoneReady, SawBlocker, Ready, UniqueIds;
    var g :| g in gates && !Observed(log, g.id);
    var low := LowestUnobserved(gates, rank, log, g);
    NotStarted(gates, log, low);
    LowestBlocked(gates, log, low);
    e := Observe(low.id, Skipped);
    SkippingIsLegal(gates, execute, limit, log, low);
  }

  lemma {:induction false} SkippingIsLegal(gates: seq<Gate>, execute: Executor, limit: int, log: seq<Event>, g: Gate)
    requires UniqueIds(gates) && g in gates && InFlight(gates, log) == {} && NoneReady(gates, log)
    requires !Observed(log, g.id) && Start(g.id) !in log && SawBlocker(log, g)
    ensures LegalStep(gates, limit, log, Observe(g.id, Skipped))
      && FaithfulStep(gates, execute, log, Observe(g.id, Skipped))
  {
    hide SawBlocker, InFlight, NoneReady, Observed;
  }

  lemma {:induction false} LowestUnobserved(gates: seq<Gate>, rank: Ranks, log: seq<Event>, g: Gate) returns (low: Gate)
    requires Ranking(gates, rank) && KnownNeeds(gates) && g in gates && !Observed(log, g.id)
    ensures low in gates && !Observed(log, low.id) && forall n :: n in low.needs ==> Observed(log, n)
    decreases rank[g.id]
  {
    hide Observed;
    if n :| n in g.needs && !Observed(log, n) {
      low := LowestUnobserved(gates, rank, log, GateOf(gates, n));
    } else {
      low := g;
    }
  }

  lemma NotStarted(gates: seq<Gate>, log: seq<Event>, g: Gate)
    requires g in gates && InFlight(gates, log) == {} && !Observed(log, g.id)
    ensures Start(g.id) !in log
  {
    assert Start(g.id) in log ==> g.id in InFlight(gates, log);
  }

  lemma LowestBlocked(gates: seq<Gate>, log: seq<Event>, g: Gate)
    requires g in gates && NoneReady(gates, log) && Start(g.id) !in log && forall n :: n in g.needs ==> Observed(log, n)
    ensures SawBlocker(log, g)
  {
    assert !Ready(log, g);
    var n :| n in g.needs && Observe(n, Passed) !in log;
    var status :| Observe(n, status) in log;
  }

  // ----- every run is short

  /** Neither started nor observed. */
  ghost function Waiting(gates: seq<Gate>, log: seq<Event>): set<string> {
    set g | g in gates && Start(g.id) !in log && !Observed(log, g.id) :: g.id
  }

  /** Two steps for a waiting gate, one for a running one. */
  ghost function StepsLeft(gates: seq<Gate>, log: seq<Event>): nat {
    2 * |Waiting(gates, log)| + |InFlight(gates, log)|
  }

  /** A gate that was skipped never becomes ready. */
  lemma {:induction false} ReadyUnobserved(gates: seq<Gate>, limit: int, log: seq<Event>, g: Gate)
    requires Legal(gates, limit, log) && g in gates && Ready(log, g)
    ensures !Observed(log, g.id)
  {
    hide Legal, NoneReady, InFlight;
    if Observed(log, g.id) {
      var status :| Observe(g.id, status) in log;
      var k :| 0 <= k < |log| && log[k] == Observe(g.id, status);
      LegalAt(gates, limit, log, k);
      var n, other :| n in g.needs && other != Passed && Observe(n, other) in log[..k];
      ObservedOnce(gates, limit, log, n, other, Passed);
    }
  }

  lemma {:induction false} ObservedOnce(gates: seq<Gate>, limit: int, log: seq<Event>, id: string, a: Status, b: Status)
    requires Legal(gates, limit, log) && Observe(id, a) in log && Observe(id, b) in log
    ensures a == b
  {
    hide Legal;
    var i :| 0 <= i < |log| && log[i] == Observe(id, a);
    var j :| 0 <= j < |log| && log[j] == Observe(id, b);
    if i < j { LegalOnce(gates, limit, log, i, j); }
    if j < i { LegalOnce(gates, limit, log, j, i); }
  }

  lemma {:induction false} StepShrinks(gates: seq<Gate>, limit: int, log: seq<Event>, e: Event)
    requires Legal(gates, limit, log) && LegalStep(gates, limit, log, e)
    ensures StepsLeft(gates, log + [e]) < StepsLeft(gates, log)
  {
    hide Legal, InFlight, Waiting, Observed, NoneReady, Ready, SawBlocker;
    var g :| g in gates && g.id == e.id;
    if e.Start? {
      ReadyUnobserved(gates, limit, log, g);
      StartMoves(gates, log, g);
    } else if Start(e.id) in log {
      SettleMoves(gates, log, g, e.status);
    } else {
      SkipMoves(gates, log, g, e.status);
    }
  }

  lemma {:induction false} StartMoves(gates: seq<Gate>, log: seq<Event>, g: Gate)
    requires g in gates && Ready(log, g) && !Observed(log, g.id)
    ensures Waiting(gates, log + [Start(g.id)]) == Waiting(gates, log) - {g.id} && g.id in Waiting(gates, log)
    ensures InFlight(gates, log + [Start(g.id)]) == InFlight(gates, log) + {g.id}
  {}

  lemma {:induction false} SettleMoves(gates: seq<Gate>, log: seq<Event>, g: Gate, status: Status)
    requires g in gates && Start(g.id) in log && !Observed(log, g.id)
    ensures Waiting(gates, log + [Observe(g.id, status)]) == Waiting(gates, log)
    ensures InFlight(gates, log + [Observe(g.id, status)]) == InFlight(gates, log) - {g.id}
      && g.id in InFlight(gates, log)
  {}

  lemma {:induction false} SkipMoves(gates: seq<Gate>, log: seq<Event>, g: Gate, status: Status)
    requires g in gates && Start(g.id) !in log && !Observed(log, g.id)
    ensures Waiting(gates, log + [Observe(g.id, status)]) == Waiting(gates, log) - {g.id} && g.id in Waiting(gates, log)
    ensures InFlight(gates, log + [Observe(g.id, status)]) == InFlight(gates, log)
  {}

  /** A run has at most two events for each gate, so no schedule goes on for ever. */
  lemma {:induction false} RunIsShort(gates: seq<Gate>, limit: int, log: seq<Event>, k: nat)
    requires Legal(gates, limit, log) && k <= |log|
    ensures k + StepsLeft(gates, log[..k]) <= 2 * |Ids(gates)|
  {
    hide *;
    if k == 0 {
      AllWaiting(gates, log[..0]);
    } else {
      RunIsShort(gates, limit, log, k - 1);
      LegalAt(gates, limit, log, k - 1);
      LegalPrefix(gates, limit, log, k - 1);
      StepShrinks(gates, limit, log[..k - 1], log[k - 1]);
      assert log[..k] == log[..k - 1] + [log[k - 1]];
    }
  }

  lemma LegalPrefix(gates: seq<Gate>, limit: int, log: seq<Event>, k: nat)
    requires Legal(gates, limit, log) && k <= |log|
    ensures Legal(gates, limit, log[..k])
  {
    hide LegalStep;
    forall j | 0 <= j < k ensures LegalStep(gates, limit, log[..k][..j], log[..k][j]) {
      assert log[..k][..j] == log[..j];
    }
  }

  lemma AllWaiting(gates: seq<Gate>, log: seq<Event>)
    requires log == []
    ensures StepsLeft(gates, log) == 2 * |Ids(gates)|
  {
    assert Waiting(gates, log) == Ids(gates) && InFlight(gates, log) == {};
  }
}

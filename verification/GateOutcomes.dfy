/**
 * What a gate run means: which status each gate must end with, stated without
 * any scheduler. The scheduler itself is in GateScheduler.
 */
module GateOutcomes {
  import opened GateGraph

  datatype Status = Passed | Failed | Skipped

  /** `blockedBy` holds the ids that the source joins into a skipped gate's error text. */
  datatype GateResult = GateResult(gate: Gate, status: Status, output: string, blockedBy: seq<string>)

  /** The child process of a gate, by the result it will report whenever it settles. */
  type Executor = Gate -> GateResult

  type Statuses = map<string, Status>

  ghost predicate NeedsPassed(g: Gate, s: Statuses) {
    forall n :: n in g.needs ==> n in s && s[n] == Passed
  }

  /** `s` gives every gate its executor's status once all its needs passed, and skips it otherwise. */
  ghost predicate Solves(gates: seq<Gate>, execute: Executor, s: Statuses) {
    && s.Keys == Ids(gates)
    && forall g :: g in gates ==> s[g.id] == if NeedsPassed(g, s) then execute(g).status else Skipped
  }

  // ----- a numbering of the gates below which their needs lie

  type Ranks = map<string, nat>

  ghost predicate Ranking(gates: seq<Gate>, rank: Ranks) {
    && UniqueIds(gates)
    && rank.Keys == Ids(gates)
    && forall g, n :: g in gates && n in g.needs ==> n in rank && rank[n] < rank[g.id]
  }

  function FirstIndex(xs: seq<string>, x: string): (i: nat)
    requires x in xs
    ensures i < |xs| && xs[i] == x && x !in xs[..i]
  {
    if xs[0] == x then 0 else FirstIndex(xs[1..], x) + 1
  }

  /** Well-formed gates can be ranked, so proofs about them can go by induction on the rank. */
  lemma RankingExists(gates: seq<Gate>) returns (rank: Ranks)
    requires WellFormed(gates)
    ensures Ranking(gates, rank)
  {
    var graph := ById(gates);
    OrderIffAcyclic(graph);
    var order :| IsOrder(graph, order);
    rank := map x | x in graph :: FirstIndex(order, x);
    forall g, n | g in gates && n in g.needs ensures n in rank && rank[n] < rank[g.id] {
      assert n in graph[order[rank[g.id]]] && n in graph;
      var i :| 0 <= i < rank[g.id] && order[i] == n;
    }
  }

  function GateOf(gates: seq<Gate>, id: string): (g: Gate)
    requires id in Ids(gates)
    ensures g in gates && g.id == id
  {
    if gates[0].id == id then gates[0] else GateOf(gates[1..], id)
  }

  // ----- exactly one status assignment solves a well-formed graph

  lemma {:induction false} SolutionsAgree(gates: seq<Gate>, execute: Executor, s: Statuses, t: Statuses, rank: Ranks,
                                          g: Gate)
    requires Ranking(gates, rank) && Solves(gates, execute, s) && Solves(gates, execute, t) && g in gates
    ensures s[g.id] == t[g.id]
    decreases rank[g.id]
  {
    forall n | n in g.needs ensures s[n] == t[n] {
      SolutionsAgree(gates, execute, s, t, rank, GateOf(gates, n));
    }
  }

  /** On well-formed gates there is only one solution, so whatever solves them agrees. */
  lemma SolutionUnique(gates: seq<Gate>, execute: Executor, s: Statuses, t: Statuses)
    requires WellFormed(gates) && Solves(gates, execute, s) && Solves(gates, execute, t)
    ensures s == t
  {
    var rank := RankingExists(gates);
    forall id | id in s ensures s[id] == t[id] {
      SolutionsAgree(gates, execute, s, t, rank, GateOf(gates, id));
    }
  }

  ghost function StatusBelow(gates: seq<Gate>, execute: Executor, rank: Ranks, id: string): Status
    requires Ranking(gates, rank) && id in rank
    decreases rank[id]
  {
    var g := GateOf(gates, id);
    if forall n | n in g.needs :: StatusBelow(gates, execute, rank, n) == Passed then execute(g).status else Skipped
  }

  lemma StatusBelowSolves(gates: seq<Gate>, execute: Executor, rank: Ranks, s: Statuses, g: Gate)
    requires Ranking(gates, rank) && g in gates && s.Keys == rank.Keys
    requires forall id :: id in rank ==> s[id] == StatusBelow(gates, execute, rank, id)
    ensures s[g.id] == if NeedsPassed(g, s) then execute(g).status else Skipped
  {
    assert GateOf(gates, g.id) == g;
    if NeedsPassed(g, s) {
      forall n | n in g.needs ensures StatusBelow(gates, execute, rank, n) == Passed {}
    } else {
      var n :| n in g.needs && s[n] != Passed;
      assert StatusBelow(gates, execute, rank, n) != Passed;
    }
  }

  lemma SolutionExists(gates: seq<Gate>, execute: Executor)
    requires WellFormed(gates)
    ensures exists s :: Solves(gates, execute, s)
  {
    var rank := RankingExists(gates);
    var s := map id | id in rank :: StatusBelow(gates, execute, rank, id);
    assert s.Keys == Ids(gates);
    forall g | g in gates ensures s[g.id] == if NeedsPassed(g, s) then execute(g).status else Skipped {
      StatusBelowSolves(gates, execute, rank, s, g);
    }
    assert Solves(gates, execute, s);
  }

  /** The statuses a run of these gates must end with. */
  ghost function FinalStatuses(gates: seq<Gate>, execute: Executor): (s: Statuses)
    requires WellFormed(gates)
    ensures Solves(gates, execute, s)
  {
    SolutionExists(gates, execute);
    var s :| Solves(gates, execute, s);
    s
  }

  // ----- the same statuses, in terms of transitive needs

  /** `b` is needed by `a`, directly or through other gates. */
  ghost predicate DependsOn(gates: seq<Gate>, a: string, b: string) {
    exists p :: IsNeedChain(gates, p, a, b)
  }

  ghost predicate IsNeedChain(gates: seq<Gate>, p: seq<string>, a: string, b: string) {
    |p| >= 2 && p[0] == a && p[|p| - 1] == b && IsChain(ById(gates), p)
  }

  ghost predicate AllTransitivePass(gates: seq<Gate>, execute: Executor, id: string) {
    forall d :: d in gates && DependsOn(gates, id, d.id) ==> execute(d).status == Passed
  }

  lemma {:induction false} PassedChain(gates: seq<Gate>, execute: Executor, s: Statuses, p: seq<string>, g: Gate,
                                       d: Gate)
    requires UniqueIds(gates) && Solves(gates, execute, s)
    requires g in gates && d in gates && NeedsPassed(g, s) && IsNeedChain(gates, p, g.id, d.id)
    ensures execute(d).status == Passed
    decreases |p|
  {
    assert p[0 + 1] in g.needs;
    var h := GateOf(gates, p[1]);
    if |p| == 2 {
      assert h == d;
    } else {
      ChainTail(ById(gates), p);
      PassedChain(gates, execute, s, p[1..], h, d);
    }
  }

  lemma {:induction false} BlockedChain(gates: seq<Gate>, execute: Executor, s: Statuses, g: Gate, rank: Ranks)
    returns (d: Gate, p: seq<string>)
    requires Ranking(gates, rank) && Solves(gates, execute, s) && g in gates && !NeedsPassed(g, s)
    ensures d in gates && execute(d).status != Passed && IsNeedChain(gates, p, g.id, d.id)
    decreases rank[g.id]
  {
    var n :| n in g.needs && !(n in s && s[n] == Passed);
    var h := GateOf(gates, n);
    if NeedsPassed(h, s) {
      NeedChainCons(gates, g, [n], n);
      return h, [g.id] + [n];
    }
    var rest;
    d, rest := BlockedChain(gates, execute, s, h, rank);
    NeedChainCons(gates, g, rest, d.id);
    p := [g.id] + rest;
  }

  lemma NeedChainCons(gates: seq<Gate>, g: Gate, rest: seq<string>, d: string)
    requires UniqueIds(gates) && g in gates && rest != [] && rest[0] in g.needs && rest[|rest| - 1] == d
    requires IsChain(ById(gates), rest)
    ensures IsNeedChain(gates, [g.id] + rest, g.id, d)
  {
    assert g.id in ById(gates) && rest[0] in ById(gates)[g.id];
    ChainCons(ById(gates), g.id, rest);
  }

  /** A gate ends with its own outcome when every transitive need passes, and is skipped otherwise. */
  lemma FinalStatusByTransitiveNeeds(gates: seq<Gate>, execute: Executor, g: Gate)
    requires WellFormed(gates) && g in gates
    ensures NeedsPassed(g, FinalStatuses(gates, execute)) <==> AllTransitivePass(gates, execute, g.id)
    ensures FinalStatuses(gates, execute)[g.id] ==
            if AllTransitivePass(gates, execute, g.id) then execute(g).status else Skipped
  {
    var s := FinalStatuses(gates, execute);
    if NeedsPassed(g, s) {
      forall d | d in gates && DependsOn(gates, g.id, d.id) ensures execute(d).status == Passed {
        var p :| IsNeedChain(gates, p, g.id, d.id);
        PassedChain(gates, execute, s, p, g, d);
      }
    } else {
      var rank := RankingExists(gates);
      var d, p := BlockedChain(gates, execute, s, g, rank);
    }
  }

  /** With executors that only pass or fail, skipped means that some transitive need failed. */
  lemma SkippedIffTransitiveFailure(gates: seq<Gate>, execute: Executor, g: Gate)
    requires WellFormed(gates) && g in gates
    requires forall d :: d in gates ==> execute(d).status != Skipped
    ensures FinalStatuses(gates, execute)[g.id] == Skipped <==>
            exists d :: d in gates && DependsOn(gates, g.id, d.id) && execute(d).status == Failed
  {
    FinalStatusByTransitiveNeeds(gates, execute, g);
  }
}

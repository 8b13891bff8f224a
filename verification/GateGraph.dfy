/**
 * The gate graph of scripts/run-gates.ts: the depth-first cycle search and the
 * validator that runs before any gate can start.
 */
module GateGraph {
  import opened Wrappers

  /** One gate; an absent `needs` list is the empty one. */
  datatype Gate = Gate(id: string, needs: seq<string>, allowFailure: bool)

  /** The index the search works on: gate id to the ids it needs. */
  type Graph = map<string, seq<string>>

  datatype GraphError =
    | NoGates
    | DuplicateId(id: string)
    | UnknownNeed(gate: string, need: string)
    | DependencyCycle(path: seq<string>)

  ghost predicate UniqueIds(gates: seq<Gate>) {
    forall i, j :: 0 <= i < j < |gates| ==> gates[i].id != gates[j].id
  }

  ghost predicate KnownNeeds(gates: seq<Gate>) {
    forall g, n :: g in gates && n in g.needs ==> n in Ids(gates)
  }

  function Ids(gates: seq<Gate>): set<string> {
    set g | g in gates :: g.id
  }

  /** `new Map(gates.map(gate => [gate.id, gate]))`: a repeated id keeps its last entry. */
  function ById(gates: seq<Gate>): (m: Graph)
    ensures m.Keys == Ids(gates)
    ensures UniqueIds(gates) ==> forall g :: g in gates ==> m[g.id] == g.needs
  {
    if gates == [] then map[]
    else
      var before, last := gates[..|gates| - 1], gates[|gates| - 1];
      assert gates == before + [last];
      assert UniqueIds(gates) ==> UniqueIds(before) && forall g :: g in before ==> g.id != last.id;
      ById(before)[last.id := last.needs]
  }

  // ----- what a cycle is, and what rules it out

  /** Each element needs the next one, by the gates of `g`. */
  ghost predicate IsChain(g: Graph, p: seq<string>) {
    forall i :: 0 <= i < |p| - 1 ==> p[i] in g && p[i + 1] in g[p[i]]
  }

  ghost predicate IsCycle(g: Graph, p: seq<string>) {
    |p| >= 2 && p[0] == p[|p| - 1] && IsChain(g, p)
  }

  ghost predicate Acyclic(g: Graph) {
    forall p :: !IsCycle(g, p)
  }

  /** Known needs come strictly before the ids that need them. */
  ghost predicate Topological(g: Graph, order: seq<string>) {
    && (forall i :: 0 <= i < |order| ==> order[i] in g)
    && (forall i, d :: 0 <= i < |order| && d in g[order[i]] && d in g ==> d in order[..i])
  }

  ghost predicate IsOrder(g: Graph, order: seq<string>) {
    Topological(g, order) && forall x :: x in g ==> x in order
  }

  /** A topological order exists. */
  ghost predicate HasOrder(g: Graph) {
    exists order :: IsOrder(g, order)
  }

  /** Walking a chain only moves towards the front of a topological order. */
  lemma {:induction false} ChainDescends(g: Graph, order: seq<string>, p: seq<string>, k: nat)
    requires IsOrder(g, order) && IsChain(g, p) && p != []
    requires k <= |order| && p[0] in order[..k] && p[|p| - 1] in g
    ensures |p| >= 2 ==> exists i :: 0 <= i < k && order[i] == p[0] && p[|p| - 1] in order[..i]
    decreases |p|
  {
    if |p| >= 2 {
      var i :| 0 <= i < k && order[i] == p[0];
      var rest := p[1..];
      assert IsChain(g, rest) by {
        forall m | 0 <= m < |rest| - 1 ensures rest[m] in g && rest[m + 1] in g[rest[m]] {
          assert rest[m] == p[m + 1];
        }
      }
      assert p[1] in g[p[0]];
      assert p[1] in g by { if |p| > 2 { assert p[1 + 1] in g[p[1]]; } }
      assert rest[0] in order[..i];
      ChainDescends(g, order, rest, i);
      if |rest| >= 2 {
        var j :| 0 <= j < i && order[j] == rest[0] && rest[|rest| - 1] in order[..j];
        assert order[..j] <= order[..i];
      }
    }
  }

  /** A graph with a topological order has no cycle. */
  lemma OrderExcludesCycles(g: Graph)
    requires HasOrder(g)
    ensures Acyclic(g)
  {
    var order :| IsOrder(g, order);
    forall p ensures !IsCycle(g, p) {
      if IsCycle(g, p) {
        NoDescendingCycle(g, order, p, |order|);
      }
    }
  }

  lemma {:induction false} NoDescendingCycle(g: Graph, order: seq<string>, p: seq<string>, k: nat)
    requires IsOrder(g, order) && k <= |order| && p != [] && p[0] in order[..k]
    ensures !IsCycle(g, p)
    decreases k
  {
    if IsCycle(g, p) {
      ChainDescends(g, order, p, k);
      var i :| 0 <= i < k && order[i] == p[0] && p[|p| - 1] in order[..i];
      NoDescendingCycle(g, order, p, i);
    }
  }

  lemma ChainTail(g: Graph, p: seq<string>)
    requires p != [] && IsChain(g, p)
    ensures IsChain(g, p[1..])
  {
    var q := p[1..];
    forall i | 0 <= i < |q| - 1 ensures q[i] in g && q[i + 1] in g[q[i]] {
      assert q[i] == p[i + 1] && q[i + 1] == p[i + 1 + 1];
    }
  }

  lemma ChainCons(g: Graph, x: string, q: seq<string>)
    requires x in g && q != [] && q[0] in g[x] && IsChain(g, q)
    ensures IsChain(g, [x] + q)
  {
    var p := [x] + q;
    forall i | 0 <= i < |p| - 1 ensures p[i] in g && p[i + 1] in g[p[i]] {
      if i > 0 { assert p[i] == q[i - 1] && p[i + 1] == q[i - 1 + 1]; }
    }
  }

  ghost predicate NeedsOneOf(g: Graph, rest: set<string>, y: string) {
    y in g && exists d :: d in g[y] && d in rest
  }

  /** A walk of `n` steps that never leaves `rest`, where every id needs another one of `rest`. */
  lemma {:induction false} Walk(g: Graph, rest: set<string>, x: string, n: nat) returns (p: seq<string>)
    requires x in rest && forall y :: y in rest ==> NeedsOneOf(g, rest, y)
    ensures |p| == n + 1 && p[0] == x && IsChain(g, p) && forall i :: 0 <= i < |p| ==> p[i] in rest
    decreases n
  {
    if n == 0 { return [x]; }
    assert NeedsOneOf(g, rest, x);
    var d :| d in g[x] && d in rest;
    hide NeedsOneOf;
    var q := Walk(g, rest, d, n - 1);
    ChainCons(g, x, q);
    p := [x] + q;
  }

  lemma {:induction false} Pigeonhole(p: seq<string>, s: set<string>) returns (i: nat, j: nat)
    requires |p| > |s| && forall k :: 0 <= k < |p| ==> p[k] in s
    ensures i < j < |p| && p[i] == p[j]
  {
    var last := |p| - 1;
    if k :| 0 <= k < last && p[k] == p[last] {
      return k, last;
    }
    i, j := Pigeonhole(p[..last], s - {p[last]});
  }

  lemma StuckHasCycle(g: Graph, rest: set<string>)
    requires rest != {} && forall y :: y in rest ==> NeedsOneOf(g, rest, y)
    ensures !Acyclic(g)
  {
    hide NeedsOneOf;
    var x :| x in rest;
    var p := Walk(g, rest, x, |rest|);
    var i, j := Pigeonhole(p, rest);
    var cycle := p[i..j + 1];
    forall k | 0 <= k < |cycle| - 1 ensures cycle[k] in g && cycle[k + 1] in g[cycle[k]] {
      assert cycle[k] == p[i + k] && cycle[k + 1] == p[i + k + 1];
    }
    assert IsCycle(g, cycle);
  }

  lemma TopologicalSnoc(g: Graph, order: seq<string>, x: string)
    requires Topological(g, order) && x in g && forall d :: d in g[x] && d in g ==> d in order
    ensures Topological(g, order + [x])
  {
    var longer := order + [x];
    forall i, d | 0 <= i < |longer| && d in g[longer[i]] && d in g ensures d in longer[..i] {
      assert longer[..i] == if i < |order| then order[..i] else order;
    }
  }

  lemma {:induction false} GrowOrder(g: Graph, order: seq<string>)
    requires Acyclic(g) && Topological(g, order)
    ensures HasOrder(g)
    decreases g.Keys - set x | x in order
  {
    var rest := g.Keys - set x | x in order;
    if rest == {} {
      forall x | x in g ensures x in order { assert x !in rest; }
      assert IsOrder(g, order);
    } else if x :| x in rest && forall d :: d in g[x] && d in g ==> d in order {
      TopologicalSnoc(g, order, x);
      assert x !in g.Keys - set y | y in order + [x];
      GrowOrder(g, order + [x]);
    } else {
      forall y | y in rest ensures NeedsOneOf(g, rest, y) {
        var d :| d in g[y] && d in g && d !in order;
      }
      StuckHasCycle(g, rest);
    }
  }

  /** Having a topological order and having no cycle are the same. */
  lemma OrderIffAcyclic(g: Graph)
    ensures HasOrder(g) <==> Acyclic(g)
  {
    if HasOrder(g) {
      OrderExcludesCycles(g);
    } else if Acyclic(g) {
      GrowOrder(g, []);
    }
  }

  // ----- the depth-first search

  /**
   * What the search keeps: `active` is the inverse of `path`, `path` is a chain of
   * known gates, and everything completed is closed under known needs.
   */
  ghost predicate SearchInv(g: Graph, complete: set<string>, active: map<string, nat>, path: seq<string>,
                            order: seq<string>) {
    && PathAgrees(g, active, path)
    && IsChain(g, path)
    && (forall x :: x in complete <==> x in order)
    && Topological(g, order)
    && complete !! active.Keys
  }

  ghost predicate PathAgrees(g: Graph, active: map<string, nat>, path: seq<string>) {
    && (forall i :: 0 <= i < |path| ==> path[i] in g && path[i] in active && active[path[i]] == i)
    && (forall x :: x in active ==> active[x] < |path| && path[active[x]] == x)
  }

  /** `id` may be visited from the end of the current path. */
  ghost predicate MayVisit(g: Graph, path: seq<string>, id: string) {
    path != [] ==> path[|path| - 1] in g && id in g[path[|path| - 1]]
  }

  lemma ChainExtends(g: Graph, path: seq<string>, id: string)
    requires IsChain(g, path) && MayVisit(g, path, id)
    ensures IsChain(g, path + [id])
  {
    var p := path + [id];
    forall i | 0 <= i < |p| - 1 ensures p[i] in g && p[i + 1] in g[p[i]] {
      if i < |path| - 1 { assert p[i] == path[i] && p[i + 1] == path[i + 1]; }
    }
  }

  lemma ActiveClosesCycle(g: Graph, active: map<string, nat>, path: seq<string>, id: string)
    requires PathAgrees(g, active, path) && IsChain(g, path) && MayVisit(g, path, id) && id in active
    ensures IsCycle(g, path[active[id]..] + [id])
  {
    ChainExtends(g, path, id);
    var start, p := active[id], path + [id];
    var found := path[start..] + [id];
    forall i | 0 <= i < |found| - 1 ensures found[i] in g && found[i + 1] in g[found[i]] {
      assert found[i] == p[start + i] && found[i + 1] == p[start + i + 1];
    }
  }

  lemma PushKeeps(g: Graph, complete: set<string>, active: map<string, nat>, path: seq<string>, order: seq<string>,
                  id: string)
    requires SearchInv(g, complete, active, path, order) && MayVisit(g, path, id)
    requires id in g && id !in complete && id !in active
    ensures SearchInv(g, complete, active[id := |path|], path + [id], order)
  {
    ChainExtends(g, path, id);
  }

  lemma CompleteKeeps(g: Graph, complete: set<string>, active: map<string, nat>, path: seq<string>,
                      order: seq<string>, id: string)
    requires SearchInv(g, complete, active[id := |path|], path + [id], order)
    requires id in g && PathAgrees(g, active, path) && IsChain(g, path) && id !in active
    requires forall d :: d in g[id] && d in g ==> d in complete
    ensures SearchInv(g, complete + {id}, active, path, order + [id])
  {
    assert (path + [id])[|path|] == id;
    TopologicalSnoc(g, order, id);
  }

  lemma PopRestores(active: map<string, nat>, path: seq<string>, id: string)
    requires id !in active
    ensures (path + [id])[..|path|] == path && active[id := |path|] - {id} == active
  {}

  /** The closure state of `findDependencyCycle`: `complete`, `active` and `path`. */
  class CycleSearch {
    const graph: Graph
    var complete: set<string>
    var active: map<string, nat>
    var path: seq<string>
    ghost var order: seq<string>  // the ids of `complete`, in completion order

    ghost predicate Valid()
      reads this
    {
      SearchInv(graph, complete, active, path, order)
    }

    constructor (graph: Graph)
      ensures Valid() && this.graph == graph && path == []
    {
      this.graph := graph;
      complete, active, path, order := {}, map[], [], [];
    }

    /** `visit(id)`: complete everything below `id`, or report the first cycle met. */
    method Visit(id: string) returns (cycle: Option<seq<string>>)
      requires Valid() && MayVisit(graph, path, id)
      modifies this
      ensures cycle.Some? ==> IsCycle(graph, cycle.value)
      ensures cycle.None? ==> Valid() && path == old(path) && active == old(active)
      ensures cycle.None? ==> old(complete) <= complete && (id in graph ==> id in complete)
      decreases graph.Keys - complete - active.Keys, 0
    {
      hide IsChain, Topological, IsCycle;
      if id in complete { return None; }
      if id in active {
        ActiveClosesCycle(graph, active, path, id);
        return Some(path[active[id]..] + [id]);
      }
      if id !in graph { return None; }

      PushKeeps(graph, complete, active, path, order, id);
      PopRestores(active, path, id);
      active := active[id := |path|];
      path := path + [id];
      assert id in graph.Keys - complete - old(active).Keys;
      cycle := VisitNeeds(graph[id]);
      if cycle.Some? { return; }
      CompleteKeeps(graph, complete, old(active), old(path), order, id);
      path := path[..|path| - 1];
      active := active - {id};
      complete := complete + {id};
      order := order + [id];
    }

    /** The loop of `visit` over the needs of the gate at the end of `path`. */
    method VisitNeeds(needs: seq<string>) returns (cycle: Option<seq<string>>)
      requires Valid() && path != [] && path[|path| - 1] in graph && graph[path[|path| - 1]] == needs
      modifies this
      ensures cycle.Some? ==> IsCycle(graph, cycle.value)
      ensures cycle.None? ==> Valid() && path == old(path) && active == old(active)
      ensures cycle.None? ==> old(complete) <= complete && forall d :: d in needs && d in graph ==> d in complete
      decreases graph.Keys - complete - active.Keys, 1
    {
      cycle := None;
      for i := 0 to |needs|
        invariant cycle.None? && Valid() && path == old(path) && active == old(active)
        invariant old(complete) <= complete
        invariant forall j :: 0 <= j < i && needs[j] in graph ==> needs[j] in complete
      {
        cycle := Visit(needs[i]);
        if cycle.Some? { return; }
      }
    }
  }

  /** `findDependencyCycle`: no answer exactly on acyclic graphs, otherwise a real cycle. */
  method FindDependencyCycle(gates: seq<Gate>) returns (cycle: Option<seq<string>>)
    ensures cycle.Some? ==> IsCycle(ById(gates), cycle.value)
    ensures cycle.None? <==> Acyclic(ById(gates))
  {
    var graph := ById(gates);
    var search := new CycleSearch(graph);
    for i := 0 to |gates|
      invariant fresh(search) && search.Valid() && search.path == [] && search.graph == graph
      invariant forall j :: 0 <= j < i ==> gates[j].id in search.complete
    {
      cycle := search.Visit(gates[i].id);
      if cycle.Some? { return; }
    }
    assert IsOrder(graph, search.order) by {
      forall x | x in graph ensures x in search.order { assert x in Ids(gates); }
    }
    OrderExcludesCycles(graph);
    return None;
  }

  // ----- validation

  ghost predicate WellFormed(gates: seq<Gate>) {
    gates != [] && UniqueIds(gates) && KnownNeeds(gates) && Acyclic(ById(gates))
  }

  /** What each refusal establishes; the earlier checks have passed by then. */
  ghost predicate Refutes(gates: seq<Gate>, error: GraphError) {
    match error
    case NoGates => gates == []
    case DuplicateId(id) =>
      exists i, j :: 0 <= i < j < |gates| && gates[i].id == id == gates[j].id && UniqueIds(gates[..j])
    case UnknownNeed(gate, need) =>
      UniqueIds(gates) && exists j, k :: FirstUnknown(gates, j, k, gate, need)
    case DependencyCycle(path) => UniqueIds(gates) && KnownNeeds(gates) && IsCycle(ById(gates), path)
  }

  /** In list order, need `k` of gate `j` is the first that no gate has as its id. */
  ghost predicate FirstUnknown(gates: seq<Gate>, j: nat, k: nat, gate: string, need: string) {
    && j < |gates| && k < |gates[j].needs|
    && gates[j].id == gate && gates[j].needs[k] == need && need !in Ids(gates)
    && (forall n :: n in gates[j].needs[..k] ==> n in Ids(gates))
    && forall g, n :: g in gates[..j] && n in g.needs ==> n in Ids(gates)
  }

  /** `validateGateGraph`: accepts exactly the well-formed lists and says what is wrong with any other. */
  method ValidateGateGraph(gates: seq<Gate>) returns (error: Option<GraphError>)
    ensures error.None? <==> WellFormed(gates)
    ensures error.Some? ==> Refutes(gates, error.value)
  {
    if gates == [] { return Some(NoGates); }
    var ids: set<string> := {};
    for j := 0 to |gates|
      invariant ids == Ids(gates[..j]) && UniqueIds(gates[..j])
    {
      if gates[j].id in ids {
        ghost var i :| 0 <= i < j && gates[i].id == gates[j].id;
        return Some(DuplicateId(gates[j].id));
      }
      assert gates[..j + 1] == gates[..j] + [gates[j]];
      ids := ids + {gates[j].id};
    }
    assert gates[..|gates|] == gates;
    for j := 0 to |gates|
      invariant forall g, n :: g in gates[..j] && n in g.needs ==> n in ids
    {
      var needs := gates[j].needs;
      for k := 0 to |needs|
        invariant forall n :: n in needs[..k] ==> n in ids
      {
        if needs[k] !in ids {
          assert gates[j] in gates && FirstUnknown(gates, j, k, gates[j].id, needs[k]);
          return Some(UnknownNeed(gates[j].id, needs[k]));
        }
      }
    }
    var cycle := FindDependencyCycle(gates);
    if cycle.Some? { return Some(DependencyCycle(cycle.value)); }
    return None;
  }
}

/** The cooperative worker pool of scripts/publint-all.ts, under every interleaving of its workers. */
module WorkerPool {
  import opened Wrappers

  /** A worker about to claim, awaiting a run, or returned. */
  datatype Worker = Ready | Running(index: nat) | Exited

  datatype State<!R> = State(next: nat, workers: seq<Worker>, results: map<nat, R>)

  type Runner<!T, !R> = T -> R

  datatype MissingResult = MissingResult(index: nat)

  function Init<R>(concurrency: nat): State<R> {
    State(0, seq(concurrency, _ => Ready), map[])
  }

  predicate CanStep<R>(s: State<R>, w: nat) {
    w < |s.workers| && !s.workers[w].Exited?
  }

  /** What one worker does between two points where others may run. */
  function Step<T, R>(targets: seq<T>, run: Runner<T, R>, s: State<R>, w: nat): State<R>
    requires CanStep(s, w)
  {
    match s.workers[w]
    case Running(i) =>
      var results := if i < |targets| then s.results[i := run(targets[i])] else s.results;
      s.(workers := s.workers[w := Ready], results := results)
    case Ready =>
      var worker := if s.next < |targets| then Running(s.next) else Exited;
      s.(next := s.next + 1, workers := s.workers[w := worker])
    case Exited => s
  }

  // ----- schedules

  /** A schedule names the worker that moves next; it may only name one that has not returned. */
  ghost predicate Legal<T, R>(targets: seq<T>, run: Runner<T, R>, s: State<R>, picks: seq<nat>)
    decreases |picks|
  {
    picks == [] || (CanStep(s, picks[0]) && Legal(targets, run, Step(targets, run, s, picks[0]), picks[1..]))
  }

  ghost function After<T, R>(targets: seq<T>, run: Runner<T, R>, s: State<R>, picks: seq<nat>): State<R>
    requires Legal(targets, run, s, picks)
    decreases |picks|
  {
    if picks == [] then s else After(targets, run, Step(targets, run, s, picks[0]), picks[1..])
  }

  /** The indices that a schedule hands out, in the order in which workers claim them. */
  ghost function Claims<T, R>(targets: seq<T>, run: Runner<T, R>, s: State<R>, picks: seq<nat>): seq<nat>
    requires Legal(targets, run, s, picks)
    decreases |picks|
  {
    if picks == [] then []
    else
      var rest := Claims(targets, run, Step(targets, run, s, picks[0]), picks[1..]);
      if s.workers[picks[0]].Ready? && s.next < |targets| then [s.next] + rest else rest
  }

  ghost predicate AllExited<R>(s: State<R>) {
    forall w :: 0 <= w < |s.workers| ==> s.workers[w].Exited?
  }

  // ----- what every reachable state keeps

  function Min(a: nat, b: nat): nat { if a <= b then a else b }

  ghost function InFlight(workers: seq<Worker>): set<nat> {
    set w | w in workers && w.Running? :: w.index
  }

  /** Every claimed index is either being run by one worker or has its own result. */
  ghost predicate Inv<T, R>(targets: seq<T>, run: Runner<T, R>, s: State<R>) {
    && (forall i: nat :: i in s.results <==> i < Min(s.next, |targets|) && i !in InFlight(s.workers))
    && (forall i :: i in InFlight(s.workers) ==> i < Min(s.next, |targets|))
    && (forall i :: i in s.results ==> s.results[i] == run(targets[i]))
    && Distinct(s.workers)
    && (Exited in s.workers ==> s.next >= |targets|)
  }

  ghost predicate Distinct(workers: seq<Worker>) {
    forall a, b :: 0 <= a < b < |workers| && workers[a].Running? ==> workers[a] != workers[b]
  }

  lemma {:induction false} InFlightUpdate(workers: seq<Worker>, w: nat, to: Worker)
    requires w < |workers| && Distinct(workers)
    ensures InFlight(workers[w := to]) == InFlight(workers) - Index(workers[w]) + Index(to)
  {
    var after := workers[w := to];
    forall i ensures i in InFlight(after) <==> i in InFlight(workers) - Index(workers[w]) + Index(to) {
      if i in InFlight(after) {
        var k :| 0 <= k < |after| && after[k] == Running(i);
        assert k != w ==> workers[k] == Running(i) && workers[k] != workers[w];
      }
      if i in InFlight(workers) - Index(workers[w]) {
        var k :| 0 <= k < |workers| && workers[k] == Running(i);
        assert k != w && after[k] == Running(i);
      }
      if i in Index(to) { assert after[w] == to; }
    }
  }

  ghost function Index(w: Worker): set<nat> {
    if w.Running? then {w.index} else {}
  }

  lemma {:induction false} StepKeeps<T, R>(targets: seq<T>, run: Runner<T, R>, s: State<R>, w: nat)
    requires CanStep(s, w) && Inv(targets, run, s)
    ensures Inv(targets, run, Step(targets, run, s, w))
  {
    var t := Step(targets, run, s, w);
    assert s.workers[w] in s.workers;
    InFlightUpdate(s.workers, w, t.workers[w]);
    DistinctUpdate(s.workers, w, t.workers[w]);
    ExitedUpdate(s.workers, w, t.workers[w]);
    RunningInFlight(s.workers, w);
    hide InFlight, Distinct;
  }

  lemma RunningInFlight(workers: seq<Worker>, w: nat)
    requires w < |workers|
    ensures workers[w].Running? ==> workers[w].index in InFlight(workers)
  {
    assert workers[w] in workers;
  }

  lemma {:induction false} DistinctUpdate(workers: seq<Worker>, w: nat, to: Worker)
    requires w < |workers| && Distinct(workers)
    requires to.Running? ==> to.index !in InFlight(workers)
    ensures Distinct(workers[w := to])
  {
    forall a | 0 <= a < |workers| && to.Running? ensures workers[a] != to {
      assert workers[a] in workers;
    }
  }

  lemma ExitedUpdate(workers: seq<Worker>, w: nat, to: Worker)
    requires w < |workers|
    ensures Exited in workers[w := to] ==> Exited in workers || to == Exited
  {}

  /** Claims come out in order, without gaps, and no two alike, whoever makes them. */
  lemma {:induction false} ClaimsInOrder<T, R>(targets: seq<T>, run: Runner<T, R>, s: State<R>, picks: seq<nat>)
    requires Legal(targets, run, s, picks)
    ensures var final := After(targets, run, s, picks);
            && s.next <= final.next
            && |Claims(targets, run, s, picks)| == Min(final.next, |targets|) - Min(s.next, |targets|)
            && forall k :: 0 <= k < |Claims(targets, run, s, picks)| ==> Claims(targets, run, s, picks)[k] == s.next + k
    decreases |picks|
  {
    if picks != [] {
      ClaimsInOrder(targets, run, Step(targets, run, s, picks[0]), picks[1..]);
    }
  }

  lemma {:induction false} RunKeeps<T, R>(targets: seq<T>, run: Runner<T, R>, s: State<R>, picks: seq<nat>)
    requires Legal(targets, run, s, picks) && Inv(targets, run, s)
    ensures Inv(targets, run, After(targets, run, s, picks)) && |After(targets, run, s, picks).workers| == |s.workers|
    decreases |picks|
  {
    hide Inv;
    if picks != [] {
      StepKeeps(targets, run, s, picks[0]);
      RunKeeps(targets, run, Step(targets, run, s, picks[0]), picks[1..]);
    }
  }

  lemma InitKeeps<T, R>(targets: seq<T>, run: Runner<T, R>, concurrency: nat)
    ensures Inv(targets, run, Init<R>(concurrency))
  {
    assert forall w :: w in Init<R>(concurrency).workers ==> w == Ready;
    assert Distinct(Init<R>(concurrency).workers);
    assert InFlight(Init<R>(concurrency).workers) == {};
  }

  lemma {:induction false} FewInFlight(workers: seq<Worker>)
    ensures |InFlight(workers)| <= |workers|
  {
    if workers != [] {
      FewInFlight(workers[1..]);
      assert workers == [workers[0]] + workers[1..];
      assert InFlight(workers) == Index(workers[0]) + InFlight(workers[1..]);
    }
  }

  /** In every reachable state at most `concurrency` runs are in flight, each of another target. */
  lemma {:induction false} BoundedInFlight<T, R>(targets: seq<T>, run: Runner<T, R>, concurrency: nat, picks: seq<nat>)
    requires Legal(targets, run, Init<R>(concurrency), picks)
    ensures var s := After(targets, run, Init<R>(concurrency), picks);
            |InFlight(s.workers)| <= concurrency && Distinct(s.workers) && Inv(targets, run, s)
  {
    InitKeeps(targets, run, concurrency);
    RunKeeps(targets, run, Init<R>(concurrency), picks);
    FewInFlight(After(targets, run, Init<R>(concurrency), picks).workers);
  }

  // ----- every run ends, and ends alike

  function Weight(w: Worker): nat {
    match w case Ready => 1 case Running(_) => 2 case Exited => 0
  }

  function Weights(workers: seq<Worker>): nat {
    if workers == [] then 0 else Weight(workers[0]) + Weights(workers[1..])
  }

  lemma {:induction false} WeightsUpdate(workers: seq<Worker>, w: nat, to: Worker)
    requires w < |workers|
    ensures Weights(workers[w := to]) + Weight(workers[w]) == Weights(workers) + Weight(to)
  {
    if w > 0 {
      WeightsUpdate(workers[1..], w - 1, to);
      assert workers[w := to][1..] == workers[1..][w - 1 := to];
    } else {
      assert workers[w := to][1..] == workers[1..];
    }
  }

  /** The steps still to come: two for each unclaimed target, and one or two for each worker. */
  function Work<T, R>(targets: seq<T>, s: State<R>): nat {
    2 * (|targets| - Min(s.next, |targets|)) + Weights(s.workers)
  }

  lemma {:induction false} StepWorks<T, R>(targets: seq<T>, run: Runner<T, R>, s: State<R>, w: nat)
    requires CanStep(s, w)
    ensures Work(targets, Step(targets, run, s, w)) == Work(targets, s) - 1
  {
    WeightsUpdate(s.workers, w, Step(targets, run, s, w).workers[w]);
  }

  lemma {:induction false} RunWorks<T, R>(targets: seq<T>, run: Runner<T, R>, s: State<R>, picks: seq<nat>)
    requires Legal(targets, run, s, picks)
    ensures Work(targets, After(targets, run, s, picks)) == Work(targets, s) - |picks|
    decreases |picks|
  {
    hide Work;
    if picks != [] {
      StepWorks(targets, run, s, picks[0]);
      RunWorks(targets, run, Step(targets, run, s, picks[0]), picks[1..]);
    }
  }

  lemma {:induction false} InitWork(n: nat)
    ensures Weights(seq(n, _ => Ready)) == n
  {
    if n > 0 {
      InitWork(n - 1);
      assert seq(n, _ => Ready)[1..] == seq(n - 1, _ => Ready);
    }
  }

  lemma {:induction false} ExitedWeigh(workers: seq<Worker>)
    ensures Weights(workers) == 0 <==> forall w :: 0 <= w < |workers| ==> workers[w].Exited?
  {
    if workers != [] {
      ExitedWeigh(workers[1..]);
      assert forall w :: 0 < w < |workers| ==> workers[w] == workers[1..][w - 1];
    }
  }

  /**
   * Every schedule is finite, and those that let every worker return all end alike: each
   * target claimed once, in order, slot i holding the run of target i.
   */
  lemma {:induction false} PoolDeterminism<T, R>(targets: seq<T>, run: Runner<T, R>, concurrency: nat, picks: seq<nat>)
    requires Legal(targets, run, Init<R>(concurrency), picks)
    ensures var init := Init<R>(concurrency);
            var s := After(targets, run, init, picks);
            && |picks| <= 2 * |targets| + concurrency
            && (AllExited(s) && (concurrency >= 1 || targets == []) ==>
              && |picks| == 2 * |targets| + concurrency
              && Claims(targets, run, init, picks) == seq(|targets|, i => i)
              && s.results == map i: nat | i < |targets| :: run(targets[i]))
  {
    var init := Init<R>(concurrency);
    var s := After(targets, run, init, picks);
    RunWorks(targets, run, init, picks);
    InitWork(concurrency);
    assert init.workers == seq(concurrency, _ => Ready);
    ClaimsInOrder(targets, run, init, picks);
    BoundedInFlight(targets, run, concurrency, picks);
    ExitedWeigh(s.workers);
    if AllExited(s) && (concurrency >= 1 || targets == []) {
      InitKeeps(targets, run, concurrency);
      RunKeeps(targets, run, init, picks);
      Finished(targets, run, s);
    }
  }

  lemma {:induction false} Finished<T, R>(targets: seq<T>, run: Runner<T, R>, s: State<R>)
    requires Inv(targets, run, s) && AllExited(s) && (s.workers != [] || targets == [])
    ensures s.next >= |targets| && s.results == map i: nat | i < |targets| :: run(targets[i])
  {
    assert InFlight(s.workers) == {};
    assert s.workers != [] ==> s.workers[0] in s.workers;
  }

  // ----- the pool itself

  class Pool<T, R> {
    const targets: seq<T>
    const run: Runner<T, R>
    var next: nat
    var workers: seq<Worker>
    var results: map<nat, R>

    ghost function Abstract(): State<R>
      reads this
    {
      State(next, workers, results)
    }

    constructor (targets: seq<T>, run: Runner<T, R>, concurrency: nat)
      ensures this.targets == targets && this.run == run && Abstract() == Init(concurrency)
    {
      this.targets, this.run := targets, run;
      next, workers, results := 0, seq(concurrency, _ => Ready), map[];
    }

    /** Lets one worker run to its next await, or return. */
    method Advance(w: nat)
      requires CanStep(Abstract(), w) && (workers[w].Running? ==> workers[w].index < |targets|)
      modifies this
      ensures Abstract() == Step(targets, run, old(Abstract()), w)
    {
      match workers[w]
      case Running(index) =>
        results := results[index := run(targets[index])];
        workers := workers[w := Ready];
      case Ready =>
        var index := next;
        next := next + 1;
        workers := workers[w := if index < |targets| then Running(index) else Exited];
    }
  }

  /** `runAll`, with the interleaving left open: any worker that has not returned may move. */
  method RunAll<T, R>(targets: seq<T>, run: Runner<T, R>, concurrency: nat) returns (r: Result<seq<R>, MissingResult>)
    ensures r == if concurrency == 0 && targets != [] then Err(MissingResult(0))
                 else Ok(seq(|targets|, i requires 0 <= i < |targets| => run(targets[i])))
  {
    var pool := new Pool(targets, run, concurrency);
    InitKeeps(targets, run, concurrency);
    while exists w | 0 <= w < |pool.workers| :: !pool.workers[w].Exited?
      invariant pool.targets == targets && pool.run == run && |pool.workers| == concurrency
      invariant Inv(targets, run, pool.Abstract())
      invariant concurrency == 0 ==> pool.results == map[]
      decreases Work(targets, pool.Abstract())
    {
      var w :| 0 <= w < |pool.workers| && !pool.workers[w].Exited?;
      StepKeeps(targets, run, pool.Abstract(), w);
      StepWorks(targets, run, pool.Abstract(), w);
      assert pool.workers[w].Running? ==> pool.workers[w].index in InFlight(pool.workers);
      pool.Advance(w);
    }
    assert AllExited(pool.Abstract());
    if concurrency >= 1 || targets == [] { Finished(targets, run, pool.Abstract()); }
    var collected := [];
    for index := 0 to |targets|
      invariant index > 0 ==> concurrency >= 1
      invariant collected == seq(index, i requires 0 <= i < index => run(targets[i]))
    {
      if index !in pool.results { return Err(MissingResult(index)); }
      collected := collected + [pool.results[index]];
    }
    r := Ok(collected);
  }
}

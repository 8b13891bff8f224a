/**
 * When an absent path is answered missing, the one answer the catalog reports: the walk
 * without its guard unfolds a tree of questions, and the guard is met exactly where that
 * tree comes to one declaration twice with the same number of steps left.
 */
module TypeMissing {
  import opened Wrappers
  import opened TypePath
  import opened TypeMeaning
  import opened TypeSoundness

  type Key = (DeclId, nat)

  /** Every type out of reach has a member at every path, and one branch of a union is enough. */
  const EVERYTHING_OUTSIDE := Reading((_, _) => true, true)

  // ----- the unguarded tree of questions

  /** What a node answers by itself, or the nodes it asks about which path. */
  datatype Verdict = Answer(r: PathLookup) | Ask(goals: seq<Goal>)

  ghost function Rule(w: World, node: Node, steps: seq<Step>): Verdict
    requires steps != []
  {
    match node
    case DeclNode(d) =>
      if d !in w.decls then Answer(Unknown)
      else
        (match w.decls[d]
         case Alias(t) => Ask([(TypeNode(d.file, t), steps)])
         case Interface(members, bases) =>
           if steps[0].Element? then Answer(Unknown)
           else
             match FindMember(members, steps[0].name)
             case Some(a) => MemberRule(d.file, a, steps)
             case None => Ask(BaseGoals(w, d.file, bases, steps)))
    case TypeNode(file, t) => TypeRule(w, file, t, steps)
    case _ => Answer(Unknown)
  }

  ghost function MemberRule(file: string, a: Option<Type>, steps: seq<Step>): Verdict
    requires steps != []
  {
    if |steps| == 1 then Answer(Found) else Ask([(AnnotationNode(file, a), steps[1..])])
  }

  ghost function BaseGoals(w: World, file: string, bases: seq<Base>, steps: seq<Step>): (r: seq<Goal>)
    ensures |r| == |bases|
  {
    seq(|bases|, i requires 0 <= i < |bases| => (BaseNode(w, file, bases[i]), steps))
  }

  ghost function PartGoals(file: string, parts: seq<Type>, steps: seq<Step>): (r: seq<Goal>)
    ensures |r| == |parts|
  {
    seq(|parts|, i requires 0 <= i < |parts| => (TypeNode(file, parts[i]), steps))
  }

  ghost function TypeRule(w: World, file: string, t: Type, steps: seq<Step>): Verdict
    requires steps != []
  {
    match t
    case Literal(members) =>
      if steps[0].Element? then Answer(Unknown)
      else
        (match FindMember(members, steps[0].name)
         case Some(a) => MemberRule(file, a, steps)
         case None => Answer(Missing))
    case Parenthesized(inner) => Ask([(TypeNode(file, inner), steps)])
    case Intersection(parts) => Ask(PartGoals(file, parts, steps))
    case Union(parts) => Ask(PartGoals(file, parts, steps))
    case ArrayOf(element) => ElementRule(file, element, steps)
    case Operator(inner) => Ask([(TypeNode(file, inner), steps)])
    case Reference(head, qualified, args) =>
      if head in PASSTHROUGH_WRAPPERS && args != [] then Ask([(TypeNode(file, args[0]), steps)])
      else if head in ARRAY_NAMES && args != [] then ElementRule(file, args[0], steps)
      else if qualified then Answer(Unknown)
      else Ask([(NameNode(w, file, head), steps)])
    case Opaque => Answer(Unknown)
  }

  ghost function ElementRule(file: string, element: Type, steps: seq<Step>): Verdict
    requires steps != []
  {
    if steps[0].Element? then Ask([(TypeNode(file, element), steps[1..])]) else Answer(Unknown)
  }

  /** The declarations the tree comes to in its first `depth` layers, each with the steps left there. */
  ghost function Visits(w: World, node: Node, steps: seq<Step>, depth: nat): multiset<Key>
    decreases depth, 0
  {
    if depth == 0 || steps == [] then multiset{}
    else
      Own(node, steps) +
      match Rule(w, node, steps)
      case Answer(_) => multiset{}
      case Ask(goals) => VisitsAll(w, goals, depth - 1)
  }

  ghost function Own(node: Node, steps: seq<Step>): multiset<Key> {
    if node.DeclNode? then multiset{(node.d, |steps|)} else multiset{}
  }

  ghost function VisitsAll(w: World, goals: seq<Goal>, depth: nat): multiset<Key>
    decreases depth, |goals|
  {
    if goals == [] then multiset{}
    else Visits(w, goals[0].0, goals[0].1, depth) + VisitsAll(w, goals[1..], depth)
  }

  /** Some declaration is come to twice with the same number of steps left. */
  ghost predicate ReachedTwice(w: World, node: Node, steps: seq<Step>) {
    exists depth: nat, k: Key :: Visits(w, node, steps, depth)[k] >= 2
  }

  lemma {:induction false} VisitsGrow(w: World, node: Node, steps: seq<Step>, d: nat, e: nat)
    requires d <= e
    ensures Visits(w, node, steps, d) <= Visits(w, node, steps, e)
    decreases d, 0
  {
    VisitsRule(w, node, steps, d);
    VisitsRule(w, node, steps, e);
    hide *;
    if d > 0 && steps != [] && Rule(w, node, steps).Ask? {
      VisitsAllGrow(w, Rule(w, node, steps).goals, d - 1, e - 1);
    }
  }

  lemma {:induction false} VisitsRule(w: World, node: Node, steps: seq<Step>, n: nat)
    ensures n == 0 || steps == [] ==> Visits(w, node, steps, n) == multiset{}
    ensures n > 0 && steps != [] ==>
      match Rule(w, node, steps)
      case Answer(_) => Visits(w, node, steps, n) == Own(node, steps)
      case Ask(goals) => Visits(w, node, steps, n) == Own(node, steps) + VisitsAll(w, goals, n - 1)
  {}

  lemma {:induction false} VisitsAllGrow(w: World, goals: seq<Goal>, d: nat, e: nat)
    requires d <= e
    ensures VisitsAll(w, goals, d) <= VisitsAll(w, goals, e)
    decreases d, |goals|
  {
    if goals != [] {
      VisitsGrow(w, goals[0].0, goals[0].1, d, e);
      VisitsAllGrow(w, goals[1..], d, e);
    }
  }

  // ----- what a guarded walk has in common with the tree

  function Count(seen: Seen, k: Key): nat {
    if k in seen then 1 else 0
  }

  /**
   * The answer fits the meaning: if not missing, some branch may have the path; if not
   * found, the declared types alone do not show it in every branch.
   */
  ghost predicate Fair(w: World, g: Goal, r: PathLookup) {
    && (r != Missing ==> Has(w, EVERYTHING_OUTSIDE, g.0, g.1))
    && (r != Found ==> !Has(w, NOTHING_OUTSIDE, g.0, g.1))
  }

  /**
   * A walk that ends with `r` and turns `seen` into `after`. Missing: the tree comes to
   * nothing twice and to nothing already seen. In any case: the answer is fair, or the tree
   * does come to something again. And whatever the walk marks, the tree comes to.
   */
  ghost predicate Traced(w: World, g: Goal, seen: Seen, r: PathLookup, after: Seen) {
    && (r == Missing ==> forall n: nat, k: Key :: Visits(w, g.0, g.1, n)[k] + Count(seen, k) <= Count(after, k))
    && (Fair(w, g, r) || Repeats(w, g, seen))
    && (forall k: Key :: k in after && k !in seen ==> Comes(w, g, k))
  }

  ghost predicate Repeats(w: World, g: Goal, seen: Seen) {
    exists n: nat, k: Key :: Visits(w, g.0, g.1, n)[k] + Count(seen, k) >= 2
  }

  ghost predicate Comes(w: World, g: Goal, k: Key) {
    exists n: nat :: Visits(w, g.0, g.1, n)[k] >= 1
  }

  ghost predicate TracedAll(w: World, goals: seq<Goal>, seen: Seen, rs: seq<PathLookup>, after: Seen) {
    && |rs| == |goals|
    && (AllMissing(rs) ==> forall n: nat, k: Key :: VisitsAll(w, goals, n)[k] + Count(seen, k) <= Count(after, k))
    && (AllFair(w, goals, rs) || RepeatsAll(w, goals, seen))
    && (forall k: Key :: k in after && k !in seen ==> ComesAll(w, goals, k))
  }

  predicate AllMissing(rs: seq<PathLookup>) {
    forall i | 0 <= i < |rs| :: rs[i] == Missing
  }

  ghost predicate AllFair(w: World, goals: seq<Goal>, rs: seq<PathLookup>)
    requires |rs| == |goals|
  {
    forall i :: 0 <= i < |rs| ==> Fair(w, goals[i], rs[i])
  }

  ghost predicate RepeatsAll(w: World, goals: seq<Goal>, seen: Seen) {
    exists n: nat, k: Key :: VisitsAll(w, goals, n)[k] + Count(seen, k) >= 2
  }

  ghost predicate ComesAll(w: World, goals: seq<Goal>, k: Key) {
    exists n: nat :: VisitsAll(w, goals, n)[k] >= 1
  }

  // ----- composing walks

  lemma {:induction false} TracedNil(w: World, seen: Seen)
    ensures TracedAll(w, [], seen, [], seen)
  {
    assert forall n: nat :: VisitsAll(w, [], n) == multiset{};
  }

  lemma {:induction false} ConsVisits(w: World, g: Goal, rest: seq<Goal>, n: nat)
    ensures VisitsAll(w, [g] + rest, n) == Visits(w, g.0, g.1, n) + VisitsAll(w, rest, n)
  {
    assert ([g] + rest)[1..] == rest;
  }

  lemma {:induction false} TracedCons(w: World, g: Goal, rest: seq<Goal>, seen: Seen, r: PathLookup, mid: Seen,
                                      rs: seq<PathLookup>, after: Seen)
    requires Traced(w, g, seen, r, mid) && TracedAll(w, rest, mid, rs, after)
    ensures TracedAll(w, [g] + rest, seen, [r] + rs, after)
  {
    hide *;
    SameLength(w, rest, mid, rs, after);
    ConsAdds(w, g, rest, seen, r, mid, rs, after);
    ConsMissing(w, g, rest, seen, r, mid, rs, after);
    ConsFair(w, g, rest, seen, r, mid, rs, after);
    AllTraced(w, [g] + rest, seen, [r] + rs, after);
  }

  lemma SameLength(w: World, goals: seq<Goal>, seen: Seen, rs: seq<PathLookup>, after: Seen)
    requires TracedAll(w, goals, seen, rs, after)
    ensures |rs| == |goals|
  {}

  lemma AllTraced(w: World, goals: seq<Goal>, seen: Seen, rs: seq<PathLookup>, after: Seen)
    requires |rs| == |goals|
    requires AllMissing(rs) ==> forall n: nat, k: Key :: VisitsAll(w, goals, n)[k] + Count(seen, k) <= Count(after, k)
    requires AllFair(w, goals, rs) || RepeatsAll(w, goals, seen)
    requires forall k: Key :: k in after && k !in seen ==> ComesAll(w, goals, k)
    ensures TracedAll(w, goals, seen, rs, after)
  {
    hide AllFair, RepeatsAll, ComesAll, VisitsAll, Count, AllMissing;
  }

  lemma {:induction false} ConsMissing(w: World, g: Goal, rest: seq<Goal>, seen: Seen, r: PathLookup, mid: Seen,
                                       rs: seq<PathLookup>, after: Seen)
    requires Traced(w, g, seen, r, mid) && TracedAll(w, rest, mid, rs, after)
    ensures AllMissing([r] + rs) ==>
      forall n: nat, k: Key :: VisitsAll(w, [g] + rest, n)[k] + Count(seen, k) <= Count(after, k)
  {
    hide Visits, VisitsAll, Count, AllFair, Fair, RepeatsAll, Repeats, ComesAll, Comes;
    assert AllMissing([r] + rs)
      ==> ([r] + rs)[0] == Missing && forall i :: 0 <= i < |rs| ==> rs[i] == ([r] + rs)[i + 1];
    forall n: nat, k: Key | AllMissing([r] + rs)
      ensures VisitsAll(w, [g] + rest, n)[k] + Count(seen, k) <= Count(after, k)
    {
      ConsVisits(w, g, rest, n);
    }
  }

  lemma {:induction false} ConsAdds(w: World, g: Goal, rest: seq<Goal>, seen: Seen, r: PathLookup, mid: Seen,
                                    rs: seq<PathLookup>, after: Seen)
    requires Traced(w, g, seen, r, mid) && TracedAll(w, rest, mid, rs, after)
    ensures forall k: Key :: k in after && k !in seen ==> ComesAll(w, [g] + rest, k)
  {
    hide Visits, VisitsAll, Count, AllFair, Fair, RepeatsAll, Repeats, AllMissing;
    forall k: Key | k in after && k !in seen ensures ComesAll(w, [g] + rest, k) {
      var n: nat :| if k in mid then Visits(w, g.0, g.1, n)[k] >= 1 else VisitsAll(w, rest, n)[k] >= 1;
      ConsVisits(w, g, rest, n);
    }
  }

  lemma {:induction false} ConsFair(w: World, g: Goal, rest: seq<Goal>, seen: Seen, r: PathLookup, mid: Seen,
                                    rs: seq<PathLookup>, after: Seen)
    requires Traced(w, g, seen, r, mid) && TracedAll(w, rest, mid, rs, after)
    ensures AllFair(w, [g] + rest, [r] + rs) || RepeatsAll(w, [g] + rest, seen)
  {
    hide Visits, VisitsAll, Fair, Count, AllMissing;
    if Repeats(w, g, seen) {
      var n: nat, k: Key :| Visits(w, g.0, g.1, n)[k] + Count(seen, k) >= 2;
      ConsVisits(w, g, rest, n);
    } else if RepeatsAll(w, rest, mid) {
      RepeatsBehind(w, g, rest, seen, mid);
    }
  }

  /** What the rest comes to again was seen before, or the first goal came to it. */
  lemma {:induction false} RepeatsBehind(w: World, g: Goal, rest: seq<Goal>, seen: Seen, mid: Seen)
    requires RepeatsAll(w, rest, mid) && forall k: Key :: k in mid && k !in seen ==> Comes(w, g, k)
    ensures RepeatsAll(w, [g] + rest, seen)
  {
    hide Visits, VisitsAll;
    var n: nat, k: Key :| VisitsAll(w, rest, n)[k] + Count(mid, k) >= 2;
    if k in mid && k !in seen {
      var m: nat :| Visits(w, g.0, g.1, m)[k] >= 1;
      var e := if m < n then n else m;
      VisitsGrow(w, g.0, g.1, m, e);
      VisitsAllGrow(w, rest, n, e);
      ConsVisits(w, g, rest, e);
      assert VisitsAll(w, [g] + rest, e)[k] + Count(seen, k) >= 2;
    } else {
      ConsVisits(w, g, rest, n);
      assert VisitsAll(w, [g] + rest, n)[k] + Count(seen, k) >= 2;
    }
  }

  lemma {:induction false} TracedOne(w: World, g: Goal, seen: Seen, r: PathLookup, after: Seen)
    requires Traced(w, g, seen, r, after)
    ensures TracedAll(w, [g], seen, [r], after)
  {
    hide *;
    TracedNil(w, after);
    TracedCons(w, g, [], seen, r, after, [], after);
    assert [g] + [] == [g] && [r] + [] == [r];
  }

  // ----- one node

  lemma TracedEmpty(w: World, node: Node, seen: Seen)
    ensures Traced(w, (node, []), seen, Found, seen)
  {
    EmptyPathPresent(w, EVERYTHING_OUTSIDE, node);
  }

  /** What a node makes of the answers to its questions. */
  function Outcome(node: Node, rs: seq<PathLookup>): PathLookup {
    if node.TypeNode? && node.t.Union? then CombineUnion(rs) else Combine(rs)
  }

  /** Fair answers to its questions make a fair answer of the node. */
  lemma {:induction false} RuleFair(w: World, node: Node, steps: seq<Step>, rs: seq<PathLookup>)
    requires steps != [] && IsKnown(w, node)
    ensures match Rule(w, node, steps)
            case Answer(r) => Fair(w, (node, steps), r)
            case Ask(goals) =>
              |rs| == |goals| && AllFair(w, goals, rs) ==> Fair(w, (node, steps), Outcome(node, rs))
  {
    if Rule(w, node, steps).Answer? {
      HasUnfolds(w, EVERYTHING_OUTSIDE, node, steps);
      HasUnfolds(w, NOTHING_OUTSIDE, node, steps);
    } else if |rs| == |Rule(w, node, steps).goals| && AllFair(w, Rule(w, node, steps).goals, rs) {
      FairUpwards(w, node, steps, rs);
      FairDownwards(w, node, steps, rs);
    }
  }

  lemma {:induction false} FairUpwards(w: World, node: Node, steps: seq<Step>, rs: seq<PathLookup>)
    requires steps != [] && IsKnown(w, node) && Rule(w, node, steps).Ask?
    requires |rs| == |Rule(w, node, steps).goals| && AllFair(w, Rule(w, node, steps).goals, rs)
    ensures Outcome(node, rs) != Missing ==> Has(w, EVERYTHING_OUTSIDE, node, steps)
  {
    var goals := Rule(w, node, steps).goals;
    HasUnfolds(w, EVERYTHING_OUTSIDE, node, steps);
    var has := HasRelation(w, EVERYTHING_OUTSIDE);
    assert forall i :: 0 <= i < |goals| && rs[i] != Missing ==> Fair(w, goals[i], rs[i]) && has(goals[i].0, goals[i].1);
    hide Has, Fair;
    if i: nat :| i < |goals| && rs[i] != Missing {
      SomethingAsked(w, node, steps, has, i);
    } else {
      NothingToAsk(w, node, steps, has, rs);
    }
  }

  /** One question that finds the path is enough, even at a union. */
  lemma {:induction false} SomethingAsked(w: World, node: Node, steps: seq<Step>, has: Relation, i: nat)
    requires steps != [] && IsKnown(w, node) && Rule(w, node, steps).Ask? && i < |Rule(w, node, steps).goals|
    requires has(Rule(w, node, steps).goals[i].0, Rule(w, node, steps).goals[i].1)
    ensures Unfold(w, EVERYTHING_OUTSIDE, node, steps, has)
  {
    var goals := Rule(w, node, steps).goals;
    if node.TypeNode? && (node.t.Intersection? || node.t.Union?) {
      assert goals[i] == (TypeNode(node.file, node.t.parts[i]), steps);
    } else if node.DeclNode? && w.decls[node.d].Interface? && FindMember(w.decls[node.d].members, steps[0].name).None? {
      assert goals[i] == (BaseNode(w, node.d.file, w.decls[node.d].bases[i]), steps);
    }
  }

  lemma NothingToAsk(w: World, node: Node, steps: seq<Step>, has: Relation, rs: seq<PathLookup>)
    requires steps != [] && Rule(w, node, steps).Ask? && |rs| == |Rule(w, node, steps).goals| && AllMissing(rs)
    ensures Outcome(node, rs) != Missing ==> Unfold(w, EVERYTHING_OUTSIDE, node, steps, has)
  {
    if rs != [] {
      assert rs[0] == Missing;
      assert Outcome(node, rs) == Missing;
    } else if node.TypeNode? && node.t.Union? {
      assert |PartGoals(node.file, node.t.parts, steps)| == |node.t.parts|;
    }
  }

  lemma {:induction false} FairDownwards(w: World, node: Node, steps: seq<Step>, rs: seq<PathLookup>)
    requires steps != [] && IsKnown(w, node) && Rule(w, node, steps).Ask?
    requires |rs| == |Rule(w, node, steps).goals| && AllFair(w, Rule(w, node, steps).goals, rs)
    ensures Outcome(node, rs) != Found ==> !Has(w, NOTHING_OUTSIDE, node, steps)
  {
    var goals := Rule(w, node, steps).goals;
    HasUnfolds(w, NOTHING_OUTSIDE, node, steps);
    var has := HasRelation(w, NOTHING_OUTSIDE);
    assert forall i :: 0 <= i < |goals| && rs[i] != Found ==> Fair(w, goals[i], rs[i]) && !has(goals[i].0, goals[i].1);
    hide Has, Fair;
    if Outcome(node, rs) != Found && node.TypeNode? && node.t.Union? {
      var i :| 0 <= i < |goals| && rs[i] != Found;
      assert !has(goals[i].0, goals[i].1) && goals[i] == (TypeNode(node.file, node.t.parts[i]), steps);
    } else if Outcome(node, rs) != Found {
      assert forall i :: 0 <= i < |goals| ==> !has(goals[i].0, goals[i].1);
      NothingAsked(w, node, steps, has);
    }
  }

  /** Outside unions, a path that no question finds is not there. */
  lemma {:induction false} NothingAsked(w: World, node: Node, steps: seq<Step>, has: Relation)
    requires steps != [] && Rule(w, node, steps).Ask? && !(node.TypeNode? && node.t.Union?)
    requires forall i :: 0 <= i < |Rule(w, node, steps).goals| ==>
      !has(Rule(w, node, steps).goals[i].0, Rule(w, node, steps).goals[i].1)
    ensures !Unfold(w, NOTHING_OUTSIDE, node, steps, has)
  {
    var goals := Rule(w, node, steps).goals;
    if |goals| > 0 { assert !has(goals[0].0, goals[0].1); }
    if node.TypeNode? && node.t.Intersection? {
      assert forall i :: 0 <= i < |node.t.parts| ==> goals[i] == (TypeNode(node.file, node.t.parts[i]), steps);
    }
    if node.DeclNode? && w.decls[node.d].Interface? && FindMember(w.decls[node.d].members, steps[0].name).None? {
      assert forall i :: 0 <= i < |goals| ==> goals[i] == (BaseNode(w, node.d.file, w.decls[node.d].bases[i]), steps);
    }
  }

  ghost predicate IsKnown(w: World, node: Node) {
    node.DeclNode? ==> node.d in w.decls
  }

  lemma {:induction false} TracedAnswer(w: World, node: Node, steps: seq<Step>, seen: Seen)
    requires steps != [] && !node.DeclNode? && Rule(w, node, steps).Answer?
    ensures Traced(w, (node, steps), seen, Rule(w, node, steps).r, seen)
  {
    RuleFair(w, node, steps, []);
    hide Rule, Fair;
    assert forall n: nat :: Visits(w, node, steps, n) == multiset{};
  }

  lemma AllWereMissing(node: Node, rs: seq<PathLookup>)
    requires Outcome(node, rs) == Missing
    ensures AllMissing(rs)
  {}

  /** A node that is no declaration passes questions on. */
  lemma {:induction false} TracedAsk(w: World, node: Node, steps: seq<Step>, seen: Seen, rs: seq<PathLookup>,
                                     after: Seen)
    requires steps != [] && !node.DeclNode? && Rule(w, node, steps).Ask?
    requires seen <= after && TracedAll(w, Rule(w, node, steps).goals, seen, rs, after)
    ensures Traced(w, (node, steps), seen, Outcome(node, rs), after)
  {
    RuleFair(w, node, steps, rs);
    AskVisits(w, node, steps);
    if Outcome(node, rs) == Missing { AllWereMissing(node, rs); }
    hide Rule, Fair, AllFair, AllMissing, Outcome;
    var goals := Rule(w, node, steps).goals;
    if n: nat, k: Key :| VisitsAll(w, goals, n)[k] + Count(seen, k) >= 2 {
      assert Visits(w, node, steps, n + 1)[k] + Count(seen, k) >= 2;
    }
    forall k: Key | k in after && k !in seen ensures Comes(w, (node, steps), k) {
      var n: nat :| VisitsAll(w, goals, n)[k] >= 1;
      assert Visits(w, node, steps, n + 1)[k] >= 1;
    }
  }

  lemma {:induction false} AskVisits(w: World, node: Node, steps: seq<Step>)
    requires steps != [] && Rule(w, node, steps).Ask?
    ensures Visits(w, node, steps, 0) == multiset{}
    ensures forall n: nat :: n > 0 ==>
      Visits(w, node, steps, n) == Own(node, steps) + VisitsAll(w, Rule(w, node, steps).goals, n - 1)
  {}

  lemma {:induction false} TracedPass(w: World, node: Node, steps: seq<Step>, g: Goal, seen: Seen, r: PathLookup,
                                      after: Seen)
    requires steps != [] && !(node.TypeNode? && node.t.Union?) && !node.DeclNode? && Rule(w, node, steps) == Ask([g])
    requires seen <= after && Traced(w, g, seen, r, after)
    ensures Traced(w, (node, steps), seen, r, after)
  {
    OneOutcome(node, r);
    hide *;
    TracedOne(w, g, seen, r, after);
    TracedAsk(w, node, steps, seen, [r], after);
  }

  lemma OneOutcome(node: Node, r: PathLookup)
    ensures !(node.TypeNode? && node.t.Union?) ==> Outcome(node, [r]) == r
  {
    assert [r][0] == r;
  }

  // ----- one declaration

  lemma {:induction false} OwnVisit(w: World, d: DeclId, steps: seq<Step>, n: nat)
    requires steps != [] && n > 0
    ensures Visits(w, DeclNode(d), steps, n)[(d, |steps|)] >= 1
  {}

  /** The guard is met: the tree comes to a declaration already seen. */
  lemma {:induction false} TracedGuard(w: World, d: DeclId, steps: seq<Step>, seen: Seen)
    requires steps != [] && (d, |steps|) in seen
    ensures Traced(w, (DeclNode(d), steps), seen, Unknown, seen)
  {
    OwnVisit(w, d, steps, 1);
    hide Visits, Fair;
    assert Visits(w, DeclNode(d), steps, 1)[(d, |steps|)] + Count(seen, (d, |steps|)) >= 2;
  }

  lemma {:induction false} TracedDeclAnswer(w: World, d: DeclId, steps: seq<Step>, seen: Seen)
    requires steps != [] && d in w.decls && (d, |steps|) !in seen && Rule(w, DeclNode(d), steps).Answer?
    ensures Traced(w, (DeclNode(d), steps), seen, Rule(w, DeclNode(d), steps).r, seen + {(d, |steps|)})
  {
    RuleFair(w, DeclNode(d), steps, []);
    OwnVisit(w, d, steps, 1);
    hide Rule, Fair;
    assert forall n: nat :: Visits(w, DeclNode(d), steps, n) <= multiset{(d, |steps|)};
  }

  lemma {:induction false} TracedDecl(w: World, d: DeclId, steps: seq<Step>, seen: Seen, rs: seq<PathLookup>,
                                      after: Seen)
    requires steps != [] && d in w.decls && (d, |steps|) !in seen && Rule(w, DeclNode(d), steps).Ask?
    requires seen + {(d, |steps|)} <= after
    requires TracedAll(w, Rule(w, DeclNode(d), steps).goals, seen + {(d, |steps|)}, rs, after)
    ensures Traced(w, (DeclNode(d), steps), seen, Combine(rs), after)
  {
    RuleFair(w, DeclNode(d), steps, rs);
    AskVisits(w, DeclNode(d), steps);
    hide Rule, Fair, AllFair, Combine, Visits, VisitsAll, AllMissing;
    DeclMissing(w, d, steps, seen, rs, after);
    var key, goals := (d, |steps|), Rule(w, DeclNode(d), steps).goals;
    if n: nat, k: Key :| VisitsAll(w, goals, n)[k] + Count(seen + {key}, k) >= 2 {
      assert Visits(w, DeclNode(d), steps, n + 1)[k] + Count(seen, k) >= 2;
    }
    forall k: Key | k in after && k !in seen ensures Comes(w, (DeclNode(d), steps), k) {
      if k == key {
        OwnVisit(w, d, steps, 1);
      } else {
        var n: nat :| VisitsAll(w, goals, n)[k] >= 1;
        assert Visits(w, DeclNode(d), steps, n + 1)[k] >= 1;
      }
    }
  }

  lemma {:induction false} DeclMissing(w: World, d: DeclId, steps: seq<Step>, seen: Seen, rs: seq<PathLookup>,
                                       after: Seen)
    requires steps != [] && d in w.decls && (d, |steps|) !in seen && Rule(w, DeclNode(d), steps).Ask?
    requires seen + {(d, |steps|)} <= after
    requires TracedAll(w, Rule(w, DeclNode(d), steps).goals, seen + {(d, |steps|)}, rs, after)
    ensures Combine(rs) == Missing ==>
      forall n: nat, k: Key :: Visits(w, DeclNode(d), steps, n)[k] + Count(seen, k) <= Count(after, k)
  {
    AskVisits(w, DeclNode(d), steps);
    if Combine(rs) == Missing { AllWereMissing(DeclNode(d), rs); }
    hide Rule, AllFair, Visits, VisitsAll, RepeatsAll, ComesAll, AllMissing, Combine;
    var key, goals := (d, |steps|), Rule(w, DeclNode(d), steps).goals;
    forall n: nat, k: Key | Combine(rs) == Missing
      ensures Visits(w, DeclNode(d), steps, n)[k] + Count(seen, k) <= Count(after, k)
    {
      if n > 0 {
        assert VisitsAll(w, goals, n - 1)[k] + Count(seen + {key}, k) <= Count(after, k);
        assert Own(DeclNode(d), steps)[k] + Count(seen, k) == Count(seen + {key}, k);
      }
    }
  }

  // ----- the walk follows the tree

  lemma {:induction false} DeclTraced(w: World, d: DeclId, steps: seq<Step>, seen: Seen, bound: nat)
    requires d in w.decls && |steps| <= bound
    ensures var (r, after) := LookupDecl(w, d, steps, seen, bound); Traced(w, (DeclNode(d), steps), seen, r, after)
    decreases AllKeys(w, bound) - seen, 0
  {
    hide Traced, TracedAll;
    if steps == [] {
      TracedEmpty(w, DeclNode(d), seen);
    } else if (d, |steps|) in seen {
      TracedGuard(w, d, steps, seen);
    } else {
      assert (d, |steps|) in AllKeys(w, bound) - seen;
      var seen1 := seen + {(d, |steps|)};
      var (r, after) := LookupDecl(w, d, steps, seen, bound);
      OneOutcome(DeclNode(d), r);
      if Rule(w, DeclNode(d), steps).Answer? {
        TracedDeclAnswer(w, d, steps, seen);
      } else {
        match w.decls[d]
        case Alias(t) =>
          TypeTraced(w, d.file, t, steps, seen1, bound);
          TracedOne(w, (TypeNode(d.file, t), steps), seen1, r, after);
          TracedDecl(w, d, steps, seen, [r], after);
        case Interface(members, bases) =>
          match FindMember(members, steps[0].name)
          case Some(a) =>
            if a.Some? {
              TypeTraced(w, d.file, a.value, steps[1..], seen1, bound);
            } else {
              TracedAnswer(w, UntypedNode, steps[1..], seen1);
            }
            TracedOne(w, (AnnotationNode(d.file, a), steps[1..]), seen1, r, after);
            TracedDecl(w, d, steps, seen, [r], after);
          case None =>
            BasesTraced(w, d.file, bases, steps, seen1, bound);
            TracedDecl(w, d, steps, seen, LookupBases(w, d.file, bases, steps, seen1, bound).0, after);
      }
    }
  }

  lemma {:induction false} BasesTraced(w: World, file: string, bases: seq<Base>, steps: seq<Step>, seen: Seen,
                                       bound: nat)
    requires steps != [] && |steps| <= bound
    ensures var (rs, after) := LookupBases(w, file, bases, steps, seen, bound);
            TracedAll(w, BaseGoals(w, file, bases, steps), seen, rs, after)
    decreases AllKeys(w, bound) - seen, 2, bases
  {
    hide Traced, TracedAll;
    if bases == [] {
      TracedNil(w, seen);
      assert BaseGoals(w, file, bases, steps) == [];
    } else {
      var (first, mid) := LookupBase(w, file, bases[0], steps, seen, bound);
      var (rest, after) := LookupBases(w, file, bases[1..], steps, mid, bound);
      var g, goals := (BaseNode(w, file, bases[0]), steps), BaseGoals(w, file, bases[1..], steps);
      BaseTraced(w, file, bases[0], steps, seen, bound);
      BasesTraced(w, file, bases[1..], steps, mid, bound);
      TracedCons(w, g, goals, seen, first, mid, rest, after);
      assert BaseGoals(w, file, bases, steps) == [g] + goals;
    }
  }

  lemma {:induction false} BaseTraced(w: World, file: string, base: Base, steps: seq<Step>, seen: Seen, bound: nat)
    requires steps != [] && |steps| <= bound
    ensures var (r, after) := LookupBase(w, file, base, steps, seen, bound);
            Traced(w, (BaseNode(w, file, base), steps), seen, r, after)
    decreases AllKeys(w, bound) - seen, 1
  {
    hide Traced;
    if base.NamedBase? && Resolve(w, file, base.name).Some? {
      DeclTraced(w, Resolve(w, file, base.name).value, steps, seen, bound);
    } else {
      TracedAnswer(w, BaseNode(w, file, base), steps, seen);
    }
  }

  lemma {:induction false} TypeTraced(w: World, file: string, t: Type, steps: seq<Step>, seen: Seen, bound: nat)
    requires |steps| <= bound
    ensures var (r, after) := LookupType(w, file, t, steps, seen, bound);
            Traced(w, (TypeNode(file, t), steps), seen, r, after)
    decreases AllKeys(w, bound) - seen, 1, t
  {
    hide Traced, TracedAll;
    var node := TypeNode(file, t);
    var (r, after) := LookupType(w, file, t, steps, seen, bound);
    if steps == [] {
      TracedEmpty(w, node, seen);
    } else if Rule(w, node, steps).Answer? {
      TracedAnswer(w, node, steps, seen);
    } else {
      match t
      case Literal(members) =>
        var a := FindMember(members, steps[0].name).value;
        if a.Some? {
          TypeTraced(w, file, a.value, steps[1..], seen, bound);
        } else {
          TracedAnswer(w, UntypedNode, steps[1..], seen);
        }
        TracedPass(w, node, steps, (AnnotationNode(file, a), steps[1..]), seen, r, after);
      case Parenthesized(inner) =>
        TypeTraced(w, file, inner, steps, seen, bound);
        TracedPass(w, node, steps, (TypeNode(file, inner), steps), seen, r, after);
      case Intersection(parts) =>
        PartsTraced(w, file, parts, steps, seen, bound);
        TracedAsk(w, node, steps, seen, LookupParts(w, file, parts, steps, seen, bound).0, after);
      case Union(parts) =>
        PartsTraced(w, file, parts, steps, seen, bound);
        TracedAsk(w, node, steps, seen, LookupParts(w, file, parts, steps, seen, bound).0, after);
      case ArrayOf(element) =>
        TypeTraced(w, file, element, steps[1..], seen, bound);
        TracedPass(w, node, steps, (TypeNode(file, element), steps[1..]), seen, r, after);
      case Operator(inner) =>
        TypeTraced(w, file, inner, steps, seen, bound);
        TracedPass(w, node, steps, (TypeNode(file, inner), steps), seen, r, after);
      case Reference(head, qualified, args) =>
        ReferenceTraced(w, file, t, steps, seen, bound);
      case Opaque =>
    }
  }

  lemma {:induction false} ReferenceTraced(w: World, file: string, t: Type, steps: seq<Step>, seen: Seen, bound: nat)
    requires t.Reference? && |steps| <= bound && steps != [] && Rule(w, TypeNode(file, t), steps).Ask?
    ensures var (r, after) := LookupType(w, file, t, steps, seen, bound);
            Traced(w, (TypeNode(file, t), steps), seen, r, after)
    decreases AllKeys(w, bound) - seen, 1, t, 0
  {
    hide Traced, TracedAll;
    var node := TypeNode(file, t);
    var (r, after) := LookupType(w, file, t, steps, seen, bound);
    if t.head in PASSTHROUGH_WRAPPERS && t.args != [] {
      TypeTraced(w, file, t.args[0], steps, seen, bound);
      TracedPass(w, node, steps, (TypeNode(file, t.args[0]), steps), seen, r, after);
    } else if t.head in ARRAY_NAMES && t.args != [] {
      TypeTraced(w, file, t.args[0], steps[1..], seen, bound);
      TracedPass(w, node, steps, (TypeNode(file, t.args[0]), steps[1..]), seen, r, after);
    } else {
      if Resolve(w, file, t.head).Some? {
        DeclTraced(w, Resolve(w, file, t.head).value, steps, seen, bound);
      } else {
        TracedAnswer(w, OutsideNode(file, t.head), steps, seen);
      }
      TracedPass(w, node, steps, (NameNode(w, file, t.head), steps), seen, r, after);
    }
  }

  lemma {:induction false} PartsTraced(w: World, file: string, parts: seq<Type>, steps: seq<Step>, seen: Seen,
                                       bound: nat)
    requires |steps| <= bound
    ensures var (rs, after) := LookupParts(w, file, parts, steps, seen, bound);
            TracedAll(w, PartGoals(file, parts, steps), seen, rs, after)
    decreases AllKeys(w, bound) - seen, 1, parts
  {
    hide Traced, TracedAll;
    if parts == [] {
      TracedNil(w, seen);
      assert PartGoals(file, parts, steps) == [];
    } else {
      var (first, mid) := LookupType(w, file, parts[0], steps, seen, bound);
      var (rest, after) := LookupParts(w, file, parts[1..], steps, mid, bound);
      var g, goals := (TypeNode(file, parts[0]), steps), PartGoals(file, parts[1..], steps);
      TypeTraced(w, file, parts[0], steps, seen, bound);
      PartsTraced(w, file, parts[1..], steps, mid, bound);
      TracedCons(w, g, goals, seen, first, mid, rest, after);
      assert PartGoals(file, parts, steps) == [g] + goals;
    }
  }

  lemma {:induction false} RootTraced(w: World, root: Node, steps: seq<Step>) returns (after: Seen)
    requires IsRoot(w, root)
    ensures Traced(w, (root, steps), {}, LookupPath(w, root, steps), after)
  {
    hide Traced;
    if root.DeclNode? {
      DeclTraced(w, root.d, steps, {}, |steps|);
      after := LookupDecl(w, root.d, steps, {}, |steps|).1;
    } else {
      TypeTraced(w, root.file, root.t, steps, {}, |steps|);
      after := LookupType(w, root.file, root.t, steps, {}, |steps|).1;
    }
  }

  // ----- the exact conditions

  /** No branch has the path, whatever lies out of reach. */
  ghost predicate InNoBranch(w: World, node: Node, steps: seq<Step>) {
    forall outside: External :: !Has(w, Reading(outside, true), node, steps)
  }

  /**
   * The answer is missing if and only if no branch has the path, whatever lies out of
   * reach, and nothing is come to twice.
   */
  lemma MissingIff(w: World, root: Node, steps: seq<Step>)
    requires IsRoot(w, root)
    ensures LookupPath(w, root, steps) == Missing <==> InNoBranch(w, root, steps) && !ReachedTwice(w, root, steps)
  {
    var after := RootTraced(w, root, steps);
    if LookupPath(w, root, steps) == Missing {
      MissingIsExact(w, root, steps, after);
    } else {
      hide Visits, Has, LookupPath, Repeats, ReachedTwice;
      if InNoBranch(w, root, steps) {
        assert !Has(w, Reading(EVERYTHING_OUTSIDE.outside, true), root, steps);
        RepeatsUnseen(w, root, steps);
      }
    }
  }

  lemma {:induction false} MissingIsExact(w: World, root: Node, steps: seq<Step>, after: Seen)
    requires IsRoot(w, root) && LookupPath(w, root, steps) == Missing && Traced(w, (root, steps), {}, Missing, after)
    ensures InNoBranch(w, root, steps) && !ReachedTwice(w, root, steps)
  {
    hide Visits, Has, LookupPath;
    forall outside: External ensures !Has(w, Reading(outside, true), root, steps) {
      LookupPathSound(w, Reading(outside, true), root, steps);
    }
    forall depth: nat, k: Key ensures Visits(w, root, steps, depth)[k] <= 1 {
      assert Visits(w, (root, steps).0, (root, steps).1, depth)[k] + Count({}, k) <= Count(after, k);
    }
  }

  lemma {:induction false} RepeatsUnseen(w: World, root: Node, steps: seq<Step>)
    requires Repeats(w, (root, steps), {})
    ensures ReachedTwice(w, root, steps)
  {
    hide Visits;
  }

  // ----- without unions both readings agree

  predicate NodeWithin(w: World, reach: set<DeclId>, node: Node) {
    match node
    case DeclNode(d) => d in reach
    case TypeNode(file, t) => Within(w, reach, file, t)
    case _ => true
  }

  lemma {:induction false} ChildrenWithin(w: World, reach: set<DeclId>, node: Node, steps: seq<Step>, g: Goal)
    requires UnionFree(w, reach) && NodeWithin(w, reach, node) && steps != [] && g in Children(w, node, steps)
    ensures NodeWithin(w, reach, g.0)
  {
    if node.DeclNode? {
      DeclChildrenWithin(w, reach, node.d, steps, g);
    } else if node.TypeNode? {
      TypeChildrenWithin(w, reach, node.file, node.t, steps, g);
    }
  }

  lemma {:induction false} MemberGoalWithin(w: World, reach: set<DeclId>, file: string, members: seq<TypeElement>,
                                            steps: seq<Step>, g: Goal)
    requires Within(w, reach, file, Literal(members)) && steps != [] && g in MemberGoals(file, members, steps)
    ensures NodeWithin(w, reach, g.0)
  {}

  lemma {:induction false} TypeChildrenWithin(w: World, reach: set<DeclId>, file: string, t: Type, steps: seq<Step>,
                                              g: Goal)
    requires Within(w, reach, file, t) && steps != [] && g in Children(w, TypeNode(file, t), steps)
    ensures NodeWithin(w, reach, g.0)
  {
    hide MemberGoals;
    if t.Literal? { MemberGoalWithin(w, reach, file, t.members, steps, g); }
  }

  lemma {:induction false} DeclChildrenWithin(w: World, reach: set<DeclId>, d: DeclId, steps: seq<Step>, g: Goal)
    requires UnionFree(w, reach) && d in reach && steps != [] && g in Children(w, DeclNode(d), steps)
    ensures NodeWithin(w, reach, g.0)
  {
    assert DeclWithin(w, reach, d);
    hide MemberGoals, UnionFree, Within;
    if w.decls[d].Interface? && g in MemberGoals(d.file, w.decls[d].members, steps) {
      MemberGoalWithin(w, reach, d.file, w.decls[d].members, steps, g);
    }
  }

  lemma {:induction false} ReadingsAgree(w: World, reach: set<DeclId>, outside: External, n: nat, node: Node,
                                         steps: seq<Step>)
    requires UnionFree(w, reach) && NodeWithin(w, reach, node)
    ensures HasWithin(w, Reading(outside, true), n, node, steps)
      <==> HasWithin(w, Reading(outside, false), n, node, steps)
    decreases n
  {
    if n > 0 && steps != [] {
      var some, every := Reading(outside, true), Reading(outside, false);
      var a := (m: Node, s: seq<Step>) => HasWithin(w, some, n - 1, m, s);
      var b := (m: Node, s: seq<Step>) => HasWithin(w, every, n - 1, m, s);
      forall g | g in Children(w, node, steps) ensures a(g.0, g.1) <==> b(g.0, g.1) {
        ChildrenWithin(w, reach, node, steps, g);
        ReadingsAgree(w, reach, outside, n - 1, g.0, g.1);
      }
      RuleIgnoresReading(w, reach, outside, node, steps, a);
      RuleIgnoresReading(w, reach, outside, node, steps, b);
      hide *;
      if Unfold(w, some, node, steps, a) { UnfoldMonotone(w, some, node, steps, a, b); }
      if Unfold(w, some, node, steps, b) { UnfoldMonotone(w, some, node, steps, b, a); }
      WithinByRule(w, some, n, node, steps);
      WithinByRule(w, every, n, node, steps);
    }
  }

  lemma RuleIgnoresReading(w: World, reach: set<DeclId>, outside: External, node: Node, steps: seq<Step>, has: Relation)
    requires NodeWithin(w, reach, node) && steps != []
    ensures Unfold(w, Reading(outside, true), node, steps, has)
      <==> Unfold(w, Reading(outside, false), node, steps, has)
  {}

  lemma WithinByRule(w: World, reading: Reading, n: nat, node: Node, steps: seq<Step>)
    requires n > 0 && steps != []
    ensures HasWithin(w, reading, n, node, steps) <==>
            Unfold(w, reading, node, steps, (m, s) => HasWithin(w, reading, n - 1, m, s))
  {}

  /** The path is absent, whatever lies out of reach. */
  ghost predicate Absent(w: World, node: Node, steps: seq<Step>) {
    forall outside: External :: !Has(w, Reading(outside, false), node, steps)
  }

  /** Where the walk can meet no union, absent in every branch and absent are the same. */
  lemma MissingIffUnionFree(w: World, reach: set<DeclId>, root: Node, steps: seq<Step>)
    requires IsRoot(w, root) && UnionFree(w, reach) && RootWithin(w, reach, root)
    ensures LookupPath(w, root, steps) == Missing <==> Absent(w, root, steps) && !ReachedTwice(w, root, steps)
  {
    MissingIff(w, root, steps);
    forall outside: External, n: nat
      ensures HasWithin(w, Reading(outside, true), n, root, steps) <==>
              HasWithin(w, Reading(outside, false), n, root, steps)
    {
      ReadingsAgree(w, reach, outside, n, root, steps);
    }
    hide HasWithin, ReachedTwice, LookupPath;
    assert forall outside: External ::
      Has(w, Reading(outside, true), root, steps) <==> Has(w, Reading(outside, false), root, steps);
  }

  /** Where nothing is come to twice, found means present in both directions, unions included. */
  lemma FoundIff(w: World, root: Node, steps: seq<Step>)
    requires IsRoot(w, root) && !ReachedTwice(w, root, steps)
    ensures LookupPath(w, root, steps) == Found <==> Has(w, NOTHING_OUTSIDE, root, steps)
  {
    var after := RootTraced(w, root, steps);
    LookupPathSound(w, NOTHING_OUTSIDE, root, steps);
    hide Visits, Has, LookupPath, Repeats, ReachedTwice;
    if Repeats(w, (root, steps), {}) { RepeatsUnseen(w, root, steps); }
  }

  // ----- types that come to nothing twice

  /**
   * The same path leads from the type to at most one declaration, and that one ranks
   * below `limit`. Behind a member or an array element the path is shorter, and there
   * is no limit.
   */
  predicate Straight(w: World, rank: map<DeclId, nat>, limit: Option<nat>, file: string, t: Type)
    decreases t, 1
  {
    match t
    case Literal(members) =>
      forall i | 0 <= i < |members| ::
        members[i].Property? && members[i].annotation.Some? ==>
          Straight(w, rank, None, file, members[i].annotation.value)
    case Parenthesized(inner) => Straight(w, rank, limit, file, inner)
    case Intersection(parts) => StraightParts(w, rank, limit, file, parts)
    case Union(parts) => StraightParts(w, rank, limit, file, parts)
    case ArrayOf(element) => Straight(w, rank, None, file, element)
    case Operator(inner) => Straight(w, rank, limit, file, inner)
    case Reference(head, qualified, args) =>
      if args != [] && head in PASSTHROUGH_WRAPPERS then Straight(w, rank, limit, file, args[0])
      else if args != [] && head in ARRAY_NAMES then Straight(w, rank, None, file, args[0])
      else qualified || StraightName(w, rank, limit, file, head)
    case Opaque => true
  }

  /** At most one of the parts leads to a declaration. */
  predicate StraightParts(w: World, rank: map<DeclId, nat>, limit: Option<nat>, file: string, parts: seq<Type>)
    decreases parts, 0
  {
    && (forall i | 0 <= i < |parts| :: Straight(w, rank, limit, file, parts[i]))
    && (forall i, j | 0 <= i < j < |parts| :: Mute(w, file, parts[i]) || Mute(w, file, parts[j]))
  }

  /** No path leads from the type to a declaration. */
  predicate Mute(w: World, file: string, t: Type) {
    match t
    case Literal(members) =>
      forall i | 0 <= i < |members| ::
        members[i].Property? && members[i].annotation.Some? ==> Mute(w, file, members[i].annotation.value)
    case Parenthesized(inner) => Mute(w, file, inner)
    case Intersection(parts) => forall i | 0 <= i < |parts| :: Mute(w, file, parts[i])
    case Union(parts) => forall i | 0 <= i < |parts| :: Mute(w, file, parts[i])
    case ArrayOf(element) => Mute(w, file, element)
    case Operator(inner) => Mute(w, file, inner)
    case Reference(head, qualified, args) =>
      if args != [] && (head in PASSTHROUGH_WRAPPERS || head in ARRAY_NAMES) then Mute(w, file, args[0])
      else qualified || Resolve(w, file, head).None?
    case Opaque => true
  }

  predicate MuteNode(w: World, node: Node) {
    match node
    case DeclNode(_) => false
    case TypeNode(file, t) => Mute(w, file, t)
    case _ => true
  }

  lemma {:induction false} MuteAsks(w: World, node: Node, steps: seq<Step>)
    requires MuteNode(w, node) && steps != [] && Rule(w, node, steps).Ask?
    ensures forall g :: g in Rule(w, node, steps).goals ==> MuteNode(w, g.0)
  {}

  lemma {:induction false} MuteVisits(w: World, node: Node, steps: seq<Step>, depth: nat)
    requires MuteNode(w, node)
    ensures Visits(w, node, steps, depth) == multiset{}
    decreases depth, 0
  {
    if depth > 0 && steps != [] && Rule(w, node, steps).Ask? {
      MuteAsks(w, node, steps);
      hide Rule, MuteNode;
      MuteVisitsAll(w, Rule(w, node, steps).goals, depth - 1);
    }
  }

  lemma {:induction false} MuteVisitsAll(w: World, goals: seq<Goal>, depth: nat)
    requires forall g :: g in goals ==> MuteNode(w, g.0)
    ensures VisitsAll(w, goals, depth) == multiset{}
    decreases depth, |goals|
  {
    if goals != [] {
      MuteVisits(w, goals[0].0, goals[0].1, depth);
      MuteVisitsAll(w, goals[1..], depth);
    }
  }

  ghost predicate OneSpeaks(w: World, goals: seq<Goal>) {
    forall i, j :: 0 <= i < j < |goals| ==> MuteNode(w, goals[i].0) || MuteNode(w, goals[j].0)
  }

  /** Of questions that are mute but for one, the tree comes to what that one comes to. */
  lemma {:induction false} OneVisited(w: World, goals: seq<Goal>, depth: nat) returns (i: int)
    requires OneSpeaks(w, goals)
    ensures -1 <= i < |goals|
    ensures VisitsAll(w, goals, depth) == if i == -1 then multiset{} else Visits(w, goals[i].0, goals[i].1, depth)
    decreases |goals|
  {
    hide MuteNode, Visits;
    if goals == [] { return -1; }
    if MuteNode(w, goals[0].0) {
      MuteVisits(w, goals[0].0, goals[0].1, depth);
      i := OneVisited(w, goals[1..], depth);
      i := if i == -1 then -1 else i + 1;
    } else {
      forall g | g in goals[1..] ensures MuteNode(w, g.0) {
        var j :| 0 <= j < |goals[1..]| && goals[1..][j] == g;
        assert goals[j + 1] == g;
      }
      MuteVisitsAll(w, goals[1..], depth);
      i := 0;
    }
  }

  predicate Below(rank: map<DeclId, nat>, limit: Option<nat>, d: DeclId) {
    d in rank && (limit.Some? ==> rank[d] < limit.value)
  }

  predicate StraightName(w: World, rank: map<DeclId, nat>, limit: Option<nat>, file: string, name: string) {
    Resolve(w, file, name).Some? ==> Below(rank, limit, Resolve(w, file, name).value)
  }

  predicate StraightDecl(w: World, rank: map<DeclId, nat>, d: DeclId)
    requires d in rank
  {
    d in w.decls &&
    match w.decls[d]
    case Alias(t) => Straight(w, rank, Some(rank[d]), d.file, t)
    case Interface(members, bases) =>
      && Straight(w, rank, None, d.file, Literal(members))
      && |bases| <= 1
      && (forall b | b in bases :: b.NamedBase? ==> StraightName(w, rank, Some(rank[d]), d.file, b.name))
  }

  /** Aliases and bases lead downwards, one at a time; members may lead anywhere. */
  predicate AllStraight(w: World, rank: map<DeclId, nat>) {
    forall d | d in rank :: StraightDecl(w, rank, d)
  }

  predicate StraightNode(w: World, rank: map<DeclId, nat>, limit: Option<nat>, node: Node) {
    match node
    case DeclNode(d) => Below(rank, limit, d)
    case TypeNode(file, t) => Straight(w, rank, limit, file, t)
    case _ => true
  }

  /** A straight node asks for the same path lower down, or for a shorter one, and only one of the asked speaks. */
  lemma {:induction false} StraightAsks(w: World, rank: map<DeclId, nat>, limit: Option<nat>, node: Node,
                                        steps: seq<Step>)
    requires AllStraight(w, rank) && StraightNode(w, rank, limit, node) && steps != [] && Rule(w, node, steps).Ask?
    ensures var goals := Rule(w, node, steps).goals;
            && OneSpeaks(w, goals)
            && forall i :: 0 <= i < |goals| ==> AsksBelow(w, rank, limit, node, steps, goals[i])
  {
    if node.DeclNode? {
      assert StraightDecl(w, rank, node.d);
    } else if node.TypeNode? && (node.t.Intersection? || node.t.Union?) {
      PartsAsk(w, rank, limit, node.file, node.t.parts, steps);
    }
  }

  lemma {:induction false} PartsAsk(w: World, rank: map<DeclId, nat>, limit: Option<nat>, file: string,
                                    parts: seq<Type>,
                                    steps: seq<Step>)
    requires StraightParts(w, rank, limit, file, parts)
    ensures OneSpeaks(w, PartGoals(file, parts, steps))
    ensures forall i :: 0 <= i < |parts| ==> StraightNode(w, rank, limit, PartGoals(file, parts, steps)[i].0)
  {
    hide Straight, Mute;
    var goals := PartGoals(file, parts, steps);
    forall i, j | 0 <= i < j < |goals| ensures MuteNode(w, goals[i].0) || MuteNode(w, goals[j].0) {
      assert Mute(w, file, parts[i]) || Mute(w, file, parts[j]);
    }
  }

  ghost predicate AsksBelow(w: World, rank: map<DeclId, nat>, limit: Option<nat>, node: Node, steps: seq<Step>,
                            g: Goal) {
    if |g.1| < |steps| then StraightNode(w, rank, None, g.0)
    else
      g.1 == steps &&
      if node.DeclNode? then node.d in rank && StraightNode(w, rank, Some(rank[node.d]), g.0)
      else StraightNode(w, rank, limit, g.0)
  }

  /** What a straight node's tree comes to: each declaration once, with fewer steps left or below the limit. */
  ghost predicate Fits(rank: map<DeclId, nat>, limit: Option<nat>, steps: seq<Step>, visits: multiset<Key>) {
    forall k: Key :: k in visits ==>
      visits[k] == 1 && k.1 <= |steps| && k.0 in rank && (k.1 == |steps| ==> Below(rank, limit, k.0))
  }

  lemma {:induction false} StraightOnce(w: World, rank: map<DeclId, nat>, limit: Option<nat>, node: Node,
                                        steps: seq<Step>, depth: nat)
    requires AllStraight(w, rank) && StraightNode(w, rank, limit, node)
    ensures Fits(rank, limit, steps, Visits(w, node, steps, depth))
    decreases depth, 1
  {
    hide *;
    VisitsRule(w, node, steps, depth);
    OwnFits(w, rank, limit, node, steps);
    if depth > 0 && steps != [] && Rule(w, node, steps).Ask? {
      StraightAsks(w, rank, limit, node, steps);
      var i := OneVisited(w, Rule(w, node, steps).goals, depth - 1);
      if i != -1 {
        GoalFits(w, rank, limit, node, steps, Rule(w, node, steps).goals[i], depth);
      }
    }
  }

  lemma {:induction false} GoalFits(w: World, rank: map<DeclId, nat>, limit: Option<nat>, node: Node, steps: seq<Step>,
                                    g: Goal, depth: nat)
    requires depth > 0 && AllStraight(w, rank) && StraightNode(w, rank, limit, node)
    requires AsksBelow(w, rank, limit, node, steps, g)
    ensures Fits(rank, limit, steps, Own(node, steps) + Visits(w, g.0, g.1, depth - 1))
    decreases depth, 0
  {
    hide *;
    AskedIsStraight(w, rank, limit, node, steps, g);
    StraightOnce(w, rank, LimitBelow(rank, limit, node, steps, g.1), g.0, g.1, depth - 1);
    FitsBelow(w, rank, limit, node, steps, g, Visits(w, g.0, g.1, depth - 1));
  }

  /** The limit for what a node asks about the path `asked`. */
  ghost function LimitBelow(rank: map<DeclId, nat>, limit: Option<nat>, node: Node, steps: seq<Step>, asked: seq<Step>)
    : Option<nat>
  {
    if |asked| < |steps| then None
    else if node.DeclNode? && node.d in rank then Some(rank[node.d])
    else limit
  }

  lemma AskedIsStraight(w: World, rank: map<DeclId, nat>, limit: Option<nat>, node: Node, steps: seq<Step>, g: Goal)
    requires StraightNode(w, rank, limit, node) && AsksBelow(w, rank, limit, node, steps, g)
    ensures StraightNode(w, rank, LimitBelow(rank, limit, node, steps, g.1), g.0)
  {}

  lemma {:induction false} OwnFits(w: World, rank: map<DeclId, nat>, limit: Option<nat>, node: Node, steps: seq<Step>)
    requires StraightNode(w, rank, limit, node)
    ensures Fits(rank, limit, steps, Own(node, steps)) && Fits(rank, limit, steps, multiset{})
    ensures Own(node, steps) + multiset{} == Own(node, steps)
  {}

  lemma {:induction false} FitsBelow(w: World, rank: map<DeclId, nat>, limit: Option<nat>, node: Node, steps: seq<Step>,
                                     g: Goal, visits: multiset<Key>)
    requires StraightNode(w, rank, limit, node) && AsksBelow(w, rank, limit, node, steps, g)
    requires Fits(rank, LimitBelow(rank, limit, node, steps, g.1), g.1, visits)
    ensures Fits(rank, limit, steps, Own(node, steps) + visits)
  {
    hide Straight;
    var all := Own(node, steps) + visits;
    forall k: Key | k in all
      ensures all[k] == 1 && k.1 <= |steps| && k.0 in rank && (k.1 == |steps| ==> Below(rank, limit, k.0))
    {
      assert k in visits ==> visits[k] == 1;
    }
  }

  /**
   * Where no path forks, neither at an intersection or union nor in heritage, and aliases
   * and bases lead downwards, both definite answers are exact.
   */
  lemma StraightIsExact(w: World, rank: map<DeclId, nat>, root: Node, steps: seq<Step>)
    requires AllStraight(w, rank) && StraightNode(w, rank, None, root) && IsRoot(w, root)
    ensures LookupPath(w, root, steps) == Missing <==> InNoBranch(w, root, steps)
    ensures LookupPath(w, root, steps) == Found <==> Has(w, NOTHING_OUTSIDE, root, steps)
  {
    hide Visits, LookupPath, InNoBranch, AllStraight, Has;
    forall depth: nat, k: Key ensures Visits(w, root, steps, depth)[k] <= 1 {
      StraightOnce(w, rank, None, root, steps, depth);
      assert Fits(rank, None, steps, Visits(w, root, steps, depth));
      if k in Visits(w, root, steps, depth) { assert Visits(w, root, steps, depth)[k] == 1; }
    }
    MissingIff(w, root, steps);
    FoundIff(w, root, steps);
  }

  // ----- how missing is lost

  /** An interface among its own bases is come to twice, with no intersection in sight. */
  lemma {:induction false} SelfBaseTwice(w: World, d: DeclId, steps: seq<Step>, i: nat)
    requires d in w.decls && w.decls[d].Interface? && steps != [] && steps[0].Member?
    requires FindMember(w.decls[d].members, steps[0].name).None?
    requires i < |w.decls[d].bases| && BaseNode(w, d.file, w.decls[d].bases[i]) == DeclNode(d)
    ensures ReachedTwice(w, DeclNode(d), steps)
  {
    var goals := Rule(w, DeclNode(d), steps).goals;
    assert goals[i] == (DeclNode(d), steps);
    OwnVisit(w, d, steps, 1);
    GoalVisits(w, goals, i, 1, (d, |steps|));
    VisitsRule(w, DeclNode(d), steps, 2);
    hide Visits, Rule;
    assert Visits(w, DeclNode(d), steps, 2)[(d, |steps|)] >= 2;
  }

  lemma {:induction false} GoalVisits(w: World, goals: seq<Goal>, i: nat, depth: nat, k: Key)
    requires i < |goals| && Visits(w, goals[i].0, goals[i].1, depth)[k] >= 1
    ensures VisitsAll(w, goals, depth)[k] >= 1
    decreases |goals|
  {
    hide Visits;
    if i > 0 { GoalVisits(w, goals[1..], i - 1, depth, k); }
  }

  /**
   * A union whose branches are answered both found and missing is answered unknown,
   * although the path is absent and no guard was met.
   */
  lemma {:induction false} MixedUnionIsAbsent(w: World, file: string, parts: seq<Type>, steps: seq<Step>, i: nat,
                                              j: nat)
    requires steps != [] && i < |parts| && j < |parts|
    requires var rs := LookupParts(w, file, parts, steps, {}, |steps|).0; rs[i] == Found && rs[j] == Missing
    ensures LookupPath(w, TypeNode(file, Union(parts)), steps) == Unknown
    ensures Absent(w, TypeNode(file, Union(parts)), steps)
  {
    forall outside: External ensures !Has(w, Reading(outside, false), TypeNode(file, Union(parts)), steps) {
      var reading := Reading(outside, false);
      PartsSound(w, reading, file, parts, steps, {}, |steps|);
      HasUnfolds(w, reading, TypeNode(file, Union(parts)), steps);
      assert !HasRelation(w, reading)(TypeNode(file, parts[j]), steps);
    }
  }
}

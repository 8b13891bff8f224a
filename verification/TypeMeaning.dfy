/**
 * What it means for a key path to be present in a type, independently of the walk:
 * the least predicate closed under the rules for each kind of node. Types that the
 * walk cannot see through may mean anything, so they are answered by an oracle.
 */
module TypeMeaning {
  import opened Wrappers
  import opened TypePath

  datatype Node =
    | DeclNode(d: DeclId)
    | TypeNode(file: string, t: Type)
    | OutsideNode(file: string, name: string)  // a name that resolves to nothing known
    | ComputedNode                             // a base that is not a plain name
    | UntypedNode                              // a property without annotation

  /** Whether a node outside the walk's reach has a member at the path. */
  type External = (Node, seq<Step>) -> bool

  type Relation = (Node, seq<Step>) -> bool

  /**
   * How types are read: what lies out of reach, and whether a union has a member as soon as
   * some branch has it. Otherwise every branch must have it.
   */
  datatype Reading = Reading(outside: External, someBranch: bool)

  const NOTHING_OUTSIDE := Reading((_, _) => false, false)

  function NameNode(w: World, file: string, name: string): Node {
    match Resolve(w, file, name)
    case Some(d) => DeclNode(d)
    case None => OutsideNode(file, name)
  }

  function BaseNode(w: World, file: string, b: Base): Node {
    match b
    case NamedBase(name) => NameNode(w, file, name)
    case ComputedBase => ComputedNode
  }

  function AnnotationNode(file: string, annotation: Option<Type>): Node {
    match annotation
    case Some(t) => TypeNode(file, t)
    case None => UntypedNode
  }

  /** A member signature of that name has whatever its annotation has; the first one counts. */
  ghost predicate MemberHas(file: string, members: seq<TypeElement>, steps: seq<Step>, has: Relation)
    requires steps != [] && steps[0].Member?
  {
    exists a :: IsMember(members, steps[0].name, a) && (|steps| == 1 || has(AnnotationNode(file, a), steps[1..]))
  }

  /** One rule application; `has` stands for presence in the nodes one step below. */
  ghost predicate Unfold(w: World, reading: Reading, node: Node, steps: seq<Step>, has: Relation)
    requires steps != []
  {
    match node
    case DeclNode(d) =>
      d in w.decls &&
      (match w.decls[d]
       case Alias(t) => has(TypeNode(d.file, t), steps)
       case Interface(members, bases) =>
         if steps[0].Element? then reading.outside(node, steps)
         else
           || MemberHas(d.file, members, steps, has)
           || (NotAmong(members, steps[0].name)
               && exists i :: 0 <= i < |bases| && has(BaseNode(w, d.file, bases[i]), steps)))
    case TypeNode(file, t) => UnfoldType(w, reading, file, t, steps, has)
    case _ => reading.outside(node, steps)
  }

  ghost predicate UnfoldType(w: World, reading: Reading, file: string, t: Type, steps: seq<Step>, has: Relation)
    requires steps != []
  {
    match t
    case Literal(members) =>
      if steps[0].Element? then reading.outside(TypeNode(file, t), steps)
      else MemberHas(file, members, steps, has)
    case Parenthesized(inner) => has(TypeNode(file, inner), steps)
    case Intersection(parts) => exists i :: 0 <= i < |parts| && has(TypeNode(file, parts[i]), steps)
    case Union(parts) =>
      if reading.someBranch then parts == [] || exists i :: 0 <= i < |parts| && has(TypeNode(file, parts[i]), steps)
      else forall i :: 0 <= i < |parts| ==> has(TypeNode(file, parts[i]), steps)
    case ArrayOf(element) =>
      if steps[0].Element? then has(TypeNode(file, element), steps[1..]) else reading.outside(TypeNode(file, t), steps)
    case Operator(inner) => has(TypeNode(file, inner), steps)
    case Reference(head, qualified, args) =>
      if head in PASSTHROUGH_WRAPPERS && args != [] then has(TypeNode(file, args[0]), steps)
      else if head in ARRAY_NAMES && args != [] then
        if steps[0].Element? then has(TypeNode(file, args[0]), steps[1..])
        else reading.outside(TypeNode(file, t), steps)
      else if qualified then reading.outside(TypeNode(file, t), steps)
      else has(NameNode(w, file, head), steps)
    case Opaque => reading.outside(TypeNode(file, t), steps)
  }

  /** Presence by a derivation of depth at most `n`. */
  ghost predicate HasWithin(w: World, reading: Reading, n: nat, node: Node, steps: seq<Step>)
    decreases n
  {
    steps == [] || (n > 0 && Unfold(w, reading, node, steps, (m, s) => HasWithin(w, reading, n - 1, m, s)))
  }

  /** The least meaning: some finite derivation shows the path present. */
  ghost predicate Has(w: World, reading: Reading, node: Node, steps: seq<Step>) {
    exists n :: HasWithin(w, reading, n, node, steps)
  }

  ghost function HasRelation(w: World, reading: Reading): Relation {
    (m, s) => Has(w, reading, m, s)
  }

  // ----- Has satisfies its own rules

  type Goal = (Node, seq<Step>)

  /** The goals one step below: all that a rule application can ask about. */
  ghost function Children(w: World, node: Node, steps: seq<Step>): seq<Goal>
    requires steps != []
  {
    match node
    case DeclNode(d) =>
      if d !in w.decls then [] else
        (match w.decls[d]
         case Alias(t) => [(TypeNode(d.file, t), steps)]
         case Interface(members, bases) =>
           MemberGoals(d.file, members, steps)
             + seq(|bases|, i requires 0 <= i < |bases| => (BaseNode(w, d.file, bases[i]), steps)))
    case TypeNode(file, t) =>
      (match t
       case Literal(members) => MemberGoals(file, members, steps)
       case Parenthesized(inner) => [(TypeNode(file, inner), steps)]
       case Intersection(parts) => seq(|parts|, i requires 0 <= i < |parts| => (TypeNode(file, parts[i]), steps))
       case Union(parts) => seq(|parts|, i requires 0 <= i < |parts| => (TypeNode(file, parts[i]), steps))
       case ArrayOf(element) => [(TypeNode(file, element), steps[1..])]
       case Operator(inner) => [(TypeNode(file, inner), steps)]
       case Reference(head, qualified, args) =>
         if head in PASSTHROUGH_WRAPPERS && args != [] then [(TypeNode(file, args[0]), steps)]
         else if head in ARRAY_NAMES && args != [] then [(TypeNode(file, args[0]), steps[1..])]
         else if qualified then []
         else [(NameNode(w, file, head), steps)]
       case Opaque => [])
    case _ => []
  }

  ghost function MemberGoals(file: string, members: seq<TypeElement>, steps: seq<Step>): seq<Goal>
    requires steps != []
  {
    if steps[0].Element? then []
    else
      match FindMember(members, steps[0].name)
      case None => []
      case Some(a) => [(AnnotationNode(file, a), steps[1..])]
  }

  lemma UnfoldMonotone(w: World, reading: Reading, node: Node, steps: seq<Step>, a: Relation, b: Relation)
    requires steps != [] && Unfold(w, reading, node, steps, a)
    requires forall g :: g in Children(w, node, steps) && a(g.0, g.1) ==> b(g.0, g.1)
    ensures Unfold(w, reading, node, steps, b)
  {
    var cs := Children(w, node, steps);
    if node.DeclNode? && w.decls[node.d].Interface? {
      var bases := w.decls[node.d].bases;
      forall i | 0 <= i < |bases| ensures (BaseNode(w, node.d.file, bases[i]), steps) in cs {
        assert cs[|MemberGoals(node.d.file, w.decls[node.d].members, steps)| + i]
          == (BaseNode(w, node.d.file, bases[i]), steps);
      }
    } else if node.TypeNode? && (node.t.Intersection? || node.t.Union?) {
      forall i | 0 <= i < |node.t.parts| ensures (TypeNode(node.file, node.t.parts[i]), steps) in cs {
        assert cs[i] == (TypeNode(node.file, node.t.parts[i]), steps);
      }
    }
  }

  lemma {:induction false} WithinMonotone(w: World, reading: Reading, n: nat, m: nat, node: Node, steps: seq<Step>)
    requires n <= m && HasWithin(w, reading, n, node, steps)
    ensures HasWithin(w, reading, m, node, steps)
    decreases n
  {
    if steps != [] {
      var n', m' := n - 1, m - 1;
      forall x, s | HasWithin(w, reading, n', x, s) ensures HasWithin(w, reading, m', x, s) {
        WithinMonotone(w, reading, n', m', x, s);
      }
      UnfoldMonotone(w, reading, node, steps,
        (x, s) => HasWithin(w, reading, n', x, s), (x, s) => HasWithin(w, reading, m', x, s));
    }
  }

  /** Finitely many derivations have a common bound on their depth. */
  lemma {:induction false} CommonDepth(w: World, reading: Reading, goals: seq<Goal>) returns (n: nat)
    ensures forall g :: g in goals && Has(w, reading, g.0, g.1) ==> HasWithin(w, reading, n, g.0, g.1)
  {
    if goals == [] { return 0; }
    n := CommonDepth(w, reading, goals[1..]);
    var m: nat := n;
    if Has(w, reading, goals[0].0, goals[0].1) {
      m :| HasWithin(w, reading, m, goals[0].0, goals[0].1);
    }
    var k := if m > n then m else n;
    forall g | g in goals && Has(w, reading, g.0, g.1) ensures HasWithin(w, reading, k, g.0, g.1) {
      WithinMonotone(w, reading, if g == goals[0] then m else n, k, g.0, g.1);
    }
    n := k;
  }

  /** The rules hold of `Has` in both directions. */
  lemma HasUnfolds(w: World, reading: Reading, node: Node, steps: seq<Step>)
    requires steps != []
    ensures Has(w, reading, node, steps) <==> Unfold(w, reading, node, steps, HasRelation(w, reading))
  {
    if Has(w, reading, node, steps) {
      var n :| HasWithin(w, reading, n, node, steps);
      var n' := n - 1;
      UnfoldMonotone(w, reading, node, steps, (m, s) => HasWithin(w, reading, n', m, s), HasRelation(w, reading));
    }
    if Unfold(w, reading, node, steps, HasRelation(w, reading)) {
      var n := CommonDepth(w, reading, Children(w, node, steps));
      UnfoldMonotone(w, reading, node, steps, HasRelation(w, reading), (m, s) => HasWithin(w, reading, n, m, s));
      var n1 := n + 1;
      assert Unfold(w, reading, node, steps, (m, s) => HasWithin(w, reading, n1 - 1, m, s)) by {
        UnfoldMonotone(w, reading, node, steps,
          (m, s) => HasWithin(w, reading, n, m, s), (m, s) => HasWithin(w, reading, n1 - 1, m, s));
      }
      assert HasWithin(w, reading, n1, node, steps);
    }
  }
}

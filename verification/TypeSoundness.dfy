/**
 * The walk against the meaning: what `found` and `missing` guarantee, and when the
 * walk is certain to notice a path that is there.
 */
module TypeSoundness {
  import opened Wrappers
  import opened TypePath
  import opened TypeMeaning

  // ----- soundness, whatever lies outside the walk's reach

  ghost predicate Sound(w: World, reading: Reading, node: Node, steps: seq<Step>, r: PathLookup) {
    (r == Found ==> Has(w, reading, node, steps)) && (r == Missing ==> !Has(w, reading, node, steps))
  }

  lemma EmptyPathPresent(w: World, reading: Reading, node: Node)
    ensures Has(w, reading, node, [])
  {
    assert HasWithin(w, reading, 0, node, []);
  }

  lemma {:induction false} DeclSound(w: World, reading: Reading, d: DeclId, steps: seq<Step>, seen: Seen, bound: nat)
    requires d in w.decls && |steps| <= bound
    ensures Sound(w, reading, DeclNode(d), steps, LookupDecl(w, d, steps, seen, bound).0)
    decreases AllKeys(w, bound) - seen, 0
  {
    if steps == [] {
      EmptyPathPresent(w, reading, DeclNode(d));
    } else if (d, |steps|) !in seen {
      assert (d, |steps|) in AllKeys(w, bound) - seen;
      var seen1 := seen + {(d, |steps|)};
      HasUnfolds(w, reading, DeclNode(d), steps);
      match w.decls[d]
      case Alias(t) => TypeSound(w, reading, d.file, t, steps, seen1, bound);
      case Interface(members, bases) =>
        if steps[0].Member? {
          match FindMember(members, steps[0].name)
          case Some(a) =>
            if |steps| > 1 && a.Some? { TypeSound(w, reading, d.file, a.value, steps[1..], seen1, bound); }
          case None =>
            BasesSound(w, reading, d.file, bases, steps, seen1, bound);
            var rs := LookupBases(w, d.file, bases, steps, seen1, bound).0;
            if i :| 0 <= i < |rs| && rs[i] == Found {
              assert HasRelation(w, reading)(BaseNode(w, d.file, bases[i]), steps);
            }
        }
    }
  }

  lemma {:induction false} BasesSound(w: World, reading: Reading, file: string, bases: seq<Base>, steps: seq<Step>,
                                      seen: Seen, bound: nat)
    requires |steps| <= bound && steps != []
    ensures forall i :: 0 <= i < |bases| ==>
      Sound(w, reading, BaseNode(w, file, bases[i]), steps, LookupBases(w, file, bases, steps, seen, bound).0[i])
    decreases AllKeys(w, bound) - seen, 2, bases
  {
    if bases != [] {
      BaseSound(w, reading, file, bases[0], steps, seen, bound);
      var seen1 := LookupBase(w, file, bases[0], steps, seen, bound).1;
      BasesSound(w, reading, file, bases[1..], steps, seen1, bound);
    }
  }

  lemma {:induction false} BaseSound(w: World, reading: Reading, file: string, base: Base, steps: seq<Step>, seen: Seen,
                                     bound: nat)
    requires |steps| <= bound && steps != []
    ensures Sound(w, reading, BaseNode(w, file, base), steps, LookupBase(w, file, base, steps, seen, bound).0)
    decreases AllKeys(w, bound) - seen, 1
  {
    if base.NamedBase? {
      match Resolve(w, file, base.name)
      case None =>
      case Some(d) => DeclSound(w, reading, d, steps, seen, bound);
    }
  }

  lemma {:induction false} TypeSound(w: World, reading: Reading, file: string, t: Type, steps: seq<Step>, seen: Seen,
                                     bound: nat)
    requires |steps| <= bound
    ensures Sound(w, reading, TypeNode(file, t), steps, LookupType(w, file, t, steps, seen, bound).0)
    decreases AllKeys(w, bound) - seen, 1, t
  {
    if steps == [] {
      EmptyPathPresent(w, reading, TypeNode(file, t));
    } else {
      HasUnfolds(w, reading, TypeNode(file, t), steps);
      match t
      case Literal(members) =>
        if steps[0].Member? && |steps| > 1 {
          match FindMember(members, steps[0].name)
          case Some(a) => if a.Some? { TypeSound(w, reading, file, a.value, steps[1..], seen, bound); }
          case None =>
        }
      case Parenthesized(inner) => TypeSound(w, reading, file, inner, steps, seen, bound);
      case Intersection(parts) =>
        PartsSound(w, reading, file, parts, steps, seen, bound);
        var rs := LookupParts(w, file, parts, steps, seen, bound).0;
        if i :| 0 <= i < |rs| && rs[i] == Found {
          assert HasRelation(w, reading)(TypeNode(file, parts[i]), steps);
        }
      case Union(parts) =>
        PartsSound(w, reading, file, parts, steps, seen, bound);
        if parts != [] && !Has(w, reading, TypeNode(file, parts[0]), steps) {
          assert !HasRelation(w, reading)(TypeNode(file, parts[0]), steps);
        }
      case ArrayOf(element) =>
        if steps[0].Element? { TypeSound(w, reading, file, element, steps[1..], seen, bound); }
      case Operator(inner) => TypeSound(w, reading, file, inner, steps, seen, bound);
      case Reference(head, qualified, args) =>
        if head in PASSTHROUGH_WRAPPERS && args != [] {
          TypeSound(w, reading, file, args[0], steps, seen, bound);
        } else if head in ARRAY_NAMES && args != [] {
          if steps[0].Element? { TypeSound(w, reading, file, args[0], steps[1..], seen, bound); }
        } else if !qualified {
          match Resolve(w, file, head)
          case None =>
          case Some(d) => DeclSound(w, reading, d, steps, seen, bound);
        }
      case Opaque =>
    }
  }

  lemma {:induction false} PartsSound(w: World, reading: Reading, file: string, parts: seq<Type>, steps: seq<Step>,
                                      seen: Seen, bound: nat)
    requires |steps| <= bound && steps != []
    ensures forall i :: 0 <= i < |parts| ==>
      Sound(w, reading, TypeNode(file, parts[i]), steps, LookupParts(w, file, parts, steps, seen, bound).0[i])
    decreases AllKeys(w, bound) - seen, 1, parts
  {
    if parts != [] {
      TypeSound(w, reading, file, parts[0], steps, seen, bound);
      var seen1 := LookupType(w, file, parts[0], steps, seen, bound).1;
      PartsSound(w, reading, file, parts[1..], steps, seen1, bound);
    }
  }

  /** Where a walk can start: at a known declaration, as the catalog does, or at any type. */
  predicate IsRoot(w: World, root: Node) {
    root.TypeNode? || (root.DeclNode? && root.d in w.decls)
  }

  /** The walk with nothing visited yet. */
  function LookupPath(w: World, root: Node, steps: seq<Step>): PathLookup
    requires IsRoot(w, root)
  {
    if root.DeclNode? then LookupDecl(w, root.d, steps, {}, |steps|).0
    else LookupType(w, root.file, root.t, steps, {}, |steps|).0
  }

  /**
   * Whatever the types outside the walk's reach mean, found is present and missing is
   * absent: a truncated branch never turns into either answer.
   */
  lemma LookupPathSound(w: World, reading: Reading, root: Node, steps: seq<Step>)
    requires IsRoot(w, root)
    ensures LookupPath(w, root, steps) == Found ==> Has(w, reading, root, steps)
    ensures LookupPath(w, root, steps) == Missing ==> !Has(w, reading, root, steps)
  {
    if root.DeclNode? {
      DeclSound(w, reading, root.d, steps, {}, |steps|);
    } else {
      TypeSound(w, reading, root.file, root.t, steps, {}, |steps|);
    }
  }

  // ----- completeness of found without unions

  /** The walk meets no union in the type, and every declaration it refers to is in `reach`. */
  predicate Within(w: World, reach: set<DeclId>, file: string, t: Type) {
    match t
    case Literal(members) =>
      forall i | 0 <= i < |members| ::
        members[i].Property? && members[i].annotation.Some? ==> Within(w, reach, file, members[i].annotation.value)
    case Parenthesized(inner) => Within(w, reach, file, inner)
    case Intersection(parts) => forall i | 0 <= i < |parts| :: Within(w, reach, file, parts[i])
    case Union(parts) => false
    case ArrayOf(element) => Within(w, reach, file, element)
    case Operator(inner) => Within(w, reach, file, inner)
    case Reference(head, qualified, args) =>
      if args != [] && (head in PASSTHROUGH_WRAPPERS || head in ARRAY_NAMES) then Within(w, reach, file, args[0])
      else qualified || NameWithin(w, reach, file, head)
    case Opaque => true
  }

  predicate NameWithin(w: World, reach: set<DeclId>, file: string, name: string) {
    Resolve(w, file, name).Some? ==> Resolve(w, file, name).value in reach
  }

  predicate DeclWithin(w: World, reach: set<DeclId>, d: DeclId) {
    d in w.decls &&
    match w.decls[d]
    case Alias(t) => Within(w, reach, d.file, t)
    case Interface(members, bases) =>
      && Within(w, reach, d.file, Literal(members))
      && forall i | 0 <= i < |bases| :: bases[i].NamedBase? ==> NameWithin(w, reach, d.file, bases[i].name)
  }

  /** The declarations in `reach` refer to each other only, and hold no union. */
  predicate UnionFree(w: World, reach: set<DeclId>) {
    forall d | d in reach :: DeclWithin(w, reach, d)
  }

  predicate RootWithin(w: World, reach: set<DeclId>, root: Node) {
    if root.DeclNode? then root.d in reach else root.TypeNode? && Within(w, reach, root.file, root.t)
  }

  /** The last `n` steps of the path. */
  function Suffix(full: seq<Step>, n: nat): seq<Step>
    requires n <= |full|
  {
    full[|full| - n..]
  }

  ghost predicate IsSuffix(full: seq<Step>, steps: seq<Step>) {
    |steps| <= |full| && steps == Suffix(full, |steps|)
  }

  /** The type does not have the path unless a declaration outside `visited` does. */
  ghost predicate DeadType(w: World, visited: Seen, file: string, t: Type, steps: seq<Step>)
    decreases t
  {
    steps != [] &&
    match t
    case Literal(members) =>
      steps[0].Member? ==>
        (match FindMember(members, steps[0].name)
         case None => true
         case Some(a) => |steps| > 1 && (a.Some? ==> DeadType(w, visited, file, a.value, steps[1..])))
    case Parenthesized(inner) => DeadType(w, visited, file, inner, steps)
    case Intersection(parts) => forall i :: 0 <= i < |parts| ==> DeadType(w, visited, file, parts[i], steps)
    case Union(parts) => false
    case ArrayOf(element) => steps[0].Element? ==> DeadType(w, visited, file, element, steps[1..])
    case Operator(inner) => DeadType(w, visited, file, inner, steps)
    case Reference(head, qualified, args) =>
      if head in PASSTHROUGH_WRAPPERS && args != [] then DeadType(w, visited, file, args[0], steps)
      else if head in ARRAY_NAMES && args != [] then
        steps[0].Element? ==> DeadType(w, visited, file, args[0], steps[1..])
      else qualified || DeadName(w, visited, file, head, |steps|)
    case Opaque => true
  }

  ghost predicate DeadName(w: World, visited: Seen, file: string, name: string, n: nat) {
    Resolve(w, file, name).Some? ==> (Resolve(w, file, name).value, n) in visited
  }

  ghost predicate DeadBase(w: World, visited: Seen, file: string, b: Base, n: nat) {
    b.NamedBase? ==> DeadName(w, visited, file, b.name, n)
  }

  ghost predicate DeadDecl(w: World, visited: Seen, d: DeclId, steps: seq<Step>) {
    steps != [] && d in w.decls &&
    match w.decls[d]
    case Alias(t) => DeadType(w, visited, d.file, t, steps)
    case Interface(members, bases) =>
      && DeadType(w, visited, d.file, Literal(members), steps)
      && (steps[0].Member? && FindMember(members, steps[0].name).None? ==>
            forall i :: 0 <= i < |bases| ==> DeadBase(w, visited, d.file, bases[i], |steps|))
  }

  /** Everything added between `before` and `after` fails, relative to `after`. */
  ghost predicate AllDead(w: World, full: seq<Step>, before: Seen, after: Seen) {
    forall d, n :: (d, n) in after && (d, n) !in before ==> n <= |full| && DeadDecl(w, after, d, Suffix(full, n))
  }

  lemma {:induction false} DeadTypeGrows(w: World, small: Seen, large: Seen, file: string, t: Type, steps: seq<Step>)
    requires small <= large && DeadType(w, small, file, t, steps)
    ensures DeadType(w, large, file, t, steps)
    decreases t
  {
    match t
    case Literal(members) =>
      if steps[0].Member? {
        match FindMember(members, steps[0].name)
        case None =>
        case Some(a) => if a.Some? { DeadTypeGrows(w, small, large, file, a.value, steps[1..]); }
      }
    case Parenthesized(inner) => DeadTypeGrows(w, small, large, file, inner, steps);
    case Intersection(parts) =>
      forall i | 0 <= i < |parts| { DeadTypeGrows(w, small, large, file, parts[i], steps); }
    case Union(parts) =>
    case ArrayOf(element) =>
      if steps[0].Element? { DeadTypeGrows(w, small, large, file, element, steps[1..]); }
    case Operator(inner) => DeadTypeGrows(w, small, large, file, inner, steps);
    case Reference(head, qualified, args) =>
      if head in PASSTHROUGH_WRAPPERS && args != [] {
        DeadTypeGrows(w, small, large, file, args[0], steps);
      } else if head in ARRAY_NAMES && args != [] {
        if steps[0].Element? { DeadTypeGrows(w, small, large, file, args[0], steps[1..]); }
      }
    case Opaque =>
  }

  lemma DeadDeclGrows(w: World, small: Seen, large: Seen, d: DeclId, steps: seq<Step>)
    requires small <= large && DeadDecl(w, small, d, steps)
    ensures DeadDecl(w, large, d, steps)
  {
    match w.decls[d]
    case Alias(t) => DeadTypeGrows(w, small, large, d.file, t, steps);
    case Interface(members, _) => DeadTypeGrows(w, small, large, d.file, Literal(members), steps);
  }

  lemma AllDeadComposes(w: World, full: seq<Step>, a: Seen, b: Seen, c: Seen)
    requires a <= b <= c && AllDead(w, full, a, b) && AllDead(w, full, b, c)
    ensures AllDead(w, full, a, c)
  {
    forall d, n | (d, n) in c && (d, n) !in a ensures n <= |full| && DeadDecl(w, c, d, Suffix(full, n)) {
      if (d, n) in b { DeadDeclGrows(w, b, c, d, Suffix(full, n)); }
    }
  }

  lemma SuffixTail(full: seq<Step>, steps: seq<Step>)
    requires IsSuffix(full, steps) && steps != []
    ensures IsSuffix(full, steps[1..])
  {}

  // A walk that does not answer found leaves only dead ends behind.

  lemma {:induction false} DeclExplored(w: World, reach: set<DeclId>, full: seq<Step>, d: DeclId, steps: seq<Step>,
                                        seen: Seen, bound: nat)
    requires UnionFree(w, reach) && d in reach && d in w.decls && |steps| <= bound && IsSuffix(full, steps)
    ensures var r := LookupDecl(w, d, steps, seen, bound);
            r.0 != Found ==> steps != [] && (d, |steps|) in r.1 && AllDead(w, full, seen, r.1)
    decreases AllKeys(w, bound) - seen, 0
  {
    if steps != [] && (d, |steps|) !in seen {
      assert (d, |steps|) in AllKeys(w, bound) - seen;
      var seen1 := seen + {(d, |steps|)};
      SuffixTail(full, steps);
      assert DeclWithin(w, reach, d);
      match w.decls[d]
      case Alias(t) => TypeExplored(w, reach, full, d.file, t, steps, seen1, bound);
      case Interface(members, bases) =>
        if steps[0].Member? {
          match FindMember(members, steps[0].name)
          case Some(a) =>
            if |steps| > 1 && a.Some? { TypeExplored(w, reach, full, d.file, a.value, steps[1..], seen1, bound); }
          case None => BasesExplored(w, reach, full, d.file, bases, steps, seen1, bound);
        }
    }
  }

  lemma {:induction false} BasesExplored(w: World, reach: set<DeclId>, full: seq<Step>, file: string,
                                         bases: seq<Base>, steps: seq<Step>, seen: Seen, bound: nat)
    requires UnionFree(w, reach) && |steps| <= bound && steps != [] && IsSuffix(full, steps)
    requires forall i :: 0 <= i < |bases| && bases[i].NamedBase? ==> NameWithin(w, reach, file, bases[i].name)
    ensures var (rs, after) := LookupBases(w, file, bases, steps, seen, bound);
            Combine(rs) != Found ==>
              && AllDead(w, full, seen, after)
              && forall i :: 0 <= i < |bases| ==> DeadBase(w, after, file, bases[i], |steps|)
    decreases AllKeys(w, bound) - seen, 2, bases
  {
    if bases != [] {
      var (first, seen1) := LookupBase(w, file, bases[0], steps, seen, bound);
      var (rest, after) := LookupBases(w, file, bases[1..], steps, seen1, bound);
      BaseExplored(w, reach, full, file, bases[0], steps, seen, bound);
      BasesExplored(w, reach, full, file, bases[1..], steps, seen1, bound);
      var rs := [first] + rest;
      if Combine(rs) != Found {
        assert rs[0] != Found;
        assert Combine(rest) != Found by {
          forall i | 0 <= i < |rest| ensures rest[i] != Found { assert rs[i + 1] != Found; }
        }
        AllDeadComposes(w, full, seen, seen1, after);
      }
    }
  }

  lemma {:induction false} BaseExplored(w: World, reach: set<DeclId>, full: seq<Step>, file: string, base: Base,
                                        steps: seq<Step>, seen: Seen, bound: nat)
    requires UnionFree(w, reach) && |steps| <= bound && steps != [] && IsSuffix(full, steps)
    requires base.NamedBase? ==> NameWithin(w, reach, file, base.name)
    ensures var r := LookupBase(w, file, base, steps, seen, bound);
            r.0 != Found ==> AllDead(w, full, seen, r.1) && DeadBase(w, r.1, file, base, |steps|)
    decreases AllKeys(w, bound) - seen, 1
  {
    if base.NamedBase? && Resolve(w, file, base.name).Some? {
      DeclExplored(w, reach, full, Resolve(w, file, base.name).value, steps, seen, bound);
    }
  }

  lemma {:induction false} TypeExplored(w: World, reach: set<DeclId>, full: seq<Step>, file: string, t: Type,
                                        steps: seq<Step>, seen: Seen, bound: nat)
    requires UnionFree(w, reach) && Within(w, reach, file, t) && |steps| <= bound && IsSuffix(full, steps)
    ensures var r := LookupType(w, file, t, steps, seen, bound);
            r.0 != Found ==> AllDead(w, full, seen, r.1) && DeadType(w, r.1, file, t, steps)
    decreases AllKeys(w, bound) - seen, 1, t
  {
    if steps != [] {
      SuffixTail(full, steps);
      match t
      case Literal(members) =>
        if steps[0].Member? && |steps| > 1 {
          match FindMember(members, steps[0].name)
          case None =>
          case Some(a) => if a.Some? { TypeExplored(w, reach, full, file, a.value, steps[1..], seen, bound); }
        }
      case Parenthesized(inner) => TypeExplored(w, reach, full, file, inner, steps, seen, bound);
      case Intersection(parts) => PartsExplored(w, reach, full, file, parts, steps, seen, bound);
      case Union(parts) =>
      case ArrayOf(element) =>
        if steps[0].Element? { TypeExplored(w, reach, full, file, element, steps[1..], seen, bound); }
      case Operator(inner) => TypeExplored(w, reach, full, file, inner, steps, seen, bound);
      case Reference(head, qualified, args) =>
        if head in PASSTHROUGH_WRAPPERS && args != [] {
          TypeExplored(w, reach, full, file, args[0], steps, seen, bound);
        } else if head in ARRAY_NAMES && args != [] {
          if steps[0].Element? { TypeExplored(w, reach, full, file, args[0], steps[1..], seen, bound); }
        } else if !qualified && Resolve(w, file, head).Some? {
          DeclExplored(w, reach, full, Resolve(w, file, head).value, steps, seen, bound);
        }
      case Opaque =>
    }
  }

  lemma {:induction false} PartsExplored(w: World, reach: set<DeclId>, full: seq<Step>, file: string,
                                         parts: seq<Type>, steps: seq<Step>, seen: Seen, bound: nat)
    requires UnionFree(w, reach) && |steps| <= bound && IsSuffix(full, steps)
    requires forall i :: 0 <= i < |parts| ==> Within(w, reach, file, parts[i])
    ensures var (rs, after) := LookupParts(w, file, parts, steps, seen, bound);
            Combine(rs) != Found ==>
              && AllDead(w, full, seen, after)
              && forall i :: 0 <= i < |parts| ==> DeadType(w, after, file, parts[i], steps)
    decreases AllKeys(w, bound) - seen, 1, parts
  {
    if parts != [] {
      var (first, seen1) := LookupType(w, file, parts[0], steps, seen, bound);
      var (rest, after) := LookupParts(w, file, parts[1..], steps, seen1, bound);
      TypeExplored(w, reach, full, file, parts[0], steps, seen, bound);
      PartsExplored(w, reach, full, file, parts[1..], steps, seen1, bound);
      var rs := [first] + rest;
      if Combine(rs) != Found {
        assert rs[0] != Found;
        assert Combine(rest) != Found by {
          forall i | 0 <= i < |rest| ensures rest[i] != Found { assert rs[i + 1] != Found; }
        }
        AllDeadComposes(w, full, seen, seen1, after);
        DeadTypeGrows(w, seen1, after, file, parts[0], steps);
      }
    }
  }

  /** A goal all of whose visited declarations are dead. */
  ghost predicate DeadGoal(w: World, visited: Seen, node: Node, steps: seq<Step>) {
    steps != [] &&
    match node
    case DeclNode(d) => (d, |steps|) in visited
    case TypeNode(file, t) => DeadType(w, visited, file, t, steps)
    case _ => true
  }

  /** No derivation of any depth escapes from dead ends. */
  lemma {:induction false} DeadIsAbsent(w: World, full: seq<Step>, visited: Seen, n: nat, node: Node, steps: seq<Step>)
    requires AllDead(w, full, {}, visited) && IsSuffix(full, steps) && DeadGoal(w, visited, node, steps)
    ensures !HasWithin(w, NOTHING_OUTSIDE, n, node, steps)
    decreases n
  {
    if n > 0 {
      var n' := n - 1;
      SuffixTail(full, steps);
      forall m, s | IsSuffix(full, s) && DeadGoal(w, visited, m, s) ensures !HasWithin(w, NOTHING_OUTSIDE, n', m, s) {
        DeadIsAbsent(w, full, visited, n', m, s);
      }
      DeadUnfold(w, full, visited, node, steps, (m, s) => HasWithin(w, NOTHING_OUTSIDE, n', m, s));
    }
  }

  lemma DeadUnfold(w: World, full: seq<Step>, visited: Seen, node: Node, steps: seq<Step>, has: Relation)
    requires AllDead(w, full, {}, visited) && IsSuffix(full, steps) && DeadGoal(w, visited, node, steps)
    requires forall m, s :: IsSuffix(full, s) && DeadGoal(w, visited, m, s) ==> !has(m, s)
    ensures !Unfold(w, NOTHING_OUTSIDE, node, steps, has)
  {
    SuffixTail(full, steps);
    match node
    case DeclNode(d) =>
      assert DeadDecl(w, visited, d, steps);
      match w.decls[d] {
        case Alias(t) => assert DeadGoal(w, visited, TypeNode(d.file, t), steps);
        case Interface(members, bases) =>
          assert DeadType(w, visited, d.file, Literal(members), steps);
          forall i | steps[0].Member? && FindMember(members, steps[0].name).None? && 0 <= i < |bases|
            ensures !has(BaseNode(w, d.file, bases[i]), steps)
          {
            assert DeadBase(w, visited, d.file, bases[i], |steps|);
            assert DeadGoal(w, visited, BaseNode(w, d.file, bases[i]), steps);
          }
      }
    case TypeNode(file, t) =>
      if t.Intersection? {
        forall i | 0 <= i < |t.parts| ensures !has(TypeNode(file, t.parts[i]), steps) {
          assert DeadGoal(w, visited, TypeNode(file, t.parts[i]), steps);
        }
      } else if t.ArrayOf? && steps[0].Element? {
        assert DeadType(w, visited, file, t.element, steps[1..]);
      } else if t.Reference? {
        if t.args != [] && (t.head in PASSTHROUGH_WRAPPERS || (t.head in ARRAY_NAMES && steps[0].Element?)) {
          var left := if t.head in PASSTHROUGH_WRAPPERS then steps else steps[1..];
          assert DeadType(w, visited, file, t.args[0], left);
          assert DeadGoal(w, visited, TypeNode(file, t.args[0]), left);
        } else if !t.qualified && !(t.args != [] && t.head in ARRAY_NAMES) {
          assert DeadGoal(w, visited, NameNode(w, file, t.head), steps);
        }
      }
    case _ =>
  }

  /**
   * Where the walk can meet no union the shared guard never loses a member: the answer is
   * found exactly when the declared types alone show the path present.
   */
  lemma FoundIffPresent(w: World, reach: set<DeclId>, root: Node, steps: seq<Step>)
    requires IsRoot(w, root) && UnionFree(w, reach) && RootWithin(w, reach, root)
    ensures LookupPath(w, root, steps) == Found <==> Has(w, NOTHING_OUTSIDE, root, steps)
  {
    LookupPathSound(w, NOTHING_OUTSIDE, root, steps);
    if LookupPath(w, root, steps) != Found {
      var visited := ExploredFrom(w, reach, root, steps);
      forall n: nat ensures !HasWithin(w, NOTHING_OUTSIDE, n, root, steps) {
        DeadIsAbsent(w, steps, visited, n, root, steps);
      }
    }
  }

  lemma {:induction false} ExploredFrom(w: World, reach: set<DeclId>, root: Node, steps: seq<Step>)
    returns (visited: Seen)
    requires IsRoot(w, root) && UnionFree(w, reach) && RootWithin(w, reach, root) && LookupPath(w, root, steps) != Found
    ensures AllDead(w, steps, {}, visited) && DeadGoal(w, visited, root, steps) && IsSuffix(steps, steps)
  {
    if root.DeclNode? {
      DeclExplored(w, reach, steps, root.d, steps, {}, |steps|);
      visited := LookupDecl(w, root.d, steps, {}, |steps|).1;
    } else {
      TypeExplored(w, reach, steps, root.file, root.t, steps, {}, |steps|);
      visited := LookupType(w, root.file, root.t, steps, {}, |steps|).1;
    }
  }

  // ----- what the shared guard costs

  const LEAF := DeclId("f", 0)
  const LEAF_REF := Reference("Leaf", false, [])

  /** One file declaring `interface Leaf { x }`. */
  const LEAF_WORLD := World(map[LEAF := Interface([Property("x", None)], [])], map[("f", "Leaf") := LEAF])

  lemma LeafRead(steps: seq<Step>, seen: Seen)
    requires |steps| == 1
    ensures LookupType(LEAF_WORLD, "f", LEAF_REF, steps, seen, 1) == LookupDecl(LEAF_WORLD, LEAF, steps, seen, 1)
  {
    assert Resolve(LEAF_WORLD, "f", "Leaf") == Some(LEAF);
    hide LookupDecl, Resolve;
  }

  /** Two references to the leaf: the first visits it, the second finds it visited. */
  lemma LeafTwice(steps: seq<Step>, r: PathLookup)
    requires |steps| == 1 && LookupDecl(LEAF_WORLD, LEAF, steps, {}, 1) == (r, {(LEAF, 1)})
    ensures LookupParts(LEAF_WORLD, "f", [LEAF_REF, LEAF_REF], steps, {}, 1).0 == [r, Unknown]
  {
    var w, seen := LEAF_WORLD, {(LEAF, 1)};
    assert LookupDecl(w, LEAF, steps, seen, 1) == (Unknown, seen);
    LeafRead(steps, {});
    LeafRead(steps, seen);
    hide LookupDecl, LookupType;
    assert [LEAF_REF][1..] == [] && [LEAF_REF, LEAF_REF][1..] == [LEAF_REF];
    assert LookupParts(w, "f", [], steps, seen, 1) == ([], seen);
    assert [Unknown] + [] == [Unknown];
    assert LookupParts(w, "f", [LEAF_REF], steps, seen, 1) == ([Unknown], seen);
  }

  /** `Leaf | Leaf` has the member x, but the second branch finds its declaration visited. */
  lemma UnionMayLoseFound()
    ensures Has(LEAF_WORLD, NOTHING_OUTSIDE, TypeNode("f", Union([LEAF_REF, LEAF_REF])), [Member("x")])
    ensures LookupPath(LEAF_WORLD, TypeNode("f", Union([LEAF_REF, LEAF_REF])), [Member("x")]) == Unknown
  {
    var w, t, steps := LEAF_WORLD, Union([LEAF_REF, LEAF_REF]), [Member("x")];
    HasUnfolds(w, NOTHING_OUTSIDE, TypeNode("f", t), steps);
    HasUnfolds(w, NOTHING_OUTSIDE, TypeNode("f", LEAF_REF), steps);
    HasUnfolds(w, NOTHING_OUTSIDE, DeclNode(LEAF), steps);
    assert NameNode(w, "f", "Leaf") == DeclNode(LEAF);
    assert {} + {(LEAF, |steps|)} == {(LEAF, 1)};
    LeafTwice(steps, Found);
    var rs := LookupParts(w, "f", [LEAF_REF, LEAF_REF], steps, {}, 1).0;
    assert rs[0] == Found && rs[1] == Unknown;
  }

  /** `Leaf & Leaf` has no member y, but the answer is unknown for the same reason. */
  lemma DiamondMayLoseMissing()
    ensures !Has(LEAF_WORLD, NOTHING_OUTSIDE, TypeNode("f", Intersection([LEAF_REF, LEAF_REF])), [Member("y")])
    ensures LookupPath(LEAF_WORLD, TypeNode("f", Intersection([LEAF_REF, LEAF_REF])), [Member("y")]) == Unknown
  {
    var w, t, steps := LEAF_WORLD, Intersection([LEAF_REF, LEAF_REF]), [Member("y")];
    assert FindMember([Property("x", None)], "y") == None by { assert [Property("x", None)][1..] == []; }
    assert LookupBases(w, "f", [], steps, {(LEAF, 1)}, 1) == ([], {(LEAF, 1)});
    assert {} + {(LEAF, |steps|)} == {(LEAF, 1)};
    LeafTwice(steps, Missing);
    var rs := LookupParts(w, "f", [LEAF_REF, LEAF_REF], steps, {}, 1).0;
    assert rs[0] == Missing && rs[1] == Unknown;
    assert Within(w, {LEAF}, "f", LEAF_REF);
    FoundIffPresent(w, {LEAF}, TypeNode("f", t), steps);
  }
}

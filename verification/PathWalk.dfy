/**
 * `lookupPath` in its own form: one mutable `seen` set that every branch of the
 * recursion consults and extends.
 */
module PathWalk {
  import opened Wrappers
  import opened TypePath

  class Walk {
    const world: World
    ghost const bound: nat
    var seen: Seen

    constructor (world: World, ghost bound: nat)
      ensures this.world == world && this.bound == bound && seen == {}
    {
      this.world, this.bound := world, bound;
      seen := {};
    }

    method Declaration(d: DeclId, steps: seq<Step>) returns (r: PathLookup)
      requires d in world.decls && |steps| <= bound
      modifies this
      ensures (r, seen) == LookupDecl(world, d, steps, old(seen), bound)
      decreases AllKeys(world, bound) - seen, 0
    {
      if steps == [] { return Found; }
      if (d, |steps|) in seen { return Unknown; }
      assert (d, |steps|) in AllKeys(world, bound) - seen;
      seen := seen + {(d, |steps|)};
      match world.decls[d]
      case Alias(t) => r := TypeNode(d.file, t, steps);
      case Interface(members, bases) =>
        if steps[0].Element? { return Unknown; }
        match FindMember(members, steps[0].name)
        case Some(annotation) =>
          if |steps| == 1 { return Found; }
          if annotation.None? { return Unknown; }
          r := TypeNode(d.file, annotation.value, steps[1..]);
        case None =>
          var results := Bases(d.file, bases, steps);
          r := Combine(results);
    }

    method Bases(file: string, bases: seq<Base>, steps: seq<Step>) returns (results: seq<PathLookup>)
      requires |steps| <= bound
      modifies this
      ensures (results, seen) == LookupBases(world, file, bases, steps, old(seen), bound)
      decreases AllKeys(world, bound) - seen, 2
    {
      results := [];
      ghost var total := LookupBases(world, file, bases, steps, seen, bound);
      assert bases[0..] == bases;
      for i := 0 to |bases|
        invariant old(seen) <= seen
        invariant var rest := LookupBases(world, file, bases[i..], steps, seen, bound);
                  results + rest.0 == total.0 && rest.1 == total.1
      {
        var one := Unknown;
        BasesFrom(world, file, bases, i, steps, seen, bound);
        hide LookupBases, LookupDecl;
        if bases[i].NamedBase? {
          var resolved := Resolve(world, file, bases[i].name);
          if resolved.Some? { one := Declaration(resolved.value, steps); }
        }
        Regrouped(results, one, LookupBases(world, file, bases[i + 1..], steps, seen, bound).0);
        results := results + [one];
      }
      assert bases[|bases|..] == [] && results + [] == results;
    }

    method TypeNode(file: string, t: Type, steps: seq<Step>) returns (r: PathLookup)
      requires |steps| <= bound
      modifies this
      ensures (r, seen) == LookupType(world, file, t, steps, old(seen), bound)
      decreases AllKeys(world, bound) - seen, 1, t
    {
      if steps == [] { return Found; }
      match t
      case Literal(members) =>
        if steps[0].Element? { return Unknown; }
        match FindMember(members, steps[0].name) {
          case Some(annotation) =>
            if |steps| == 1 { return Found; }
            if annotation.None? { return Unknown; }
            r := TypeNode(file, annotation.value, steps[1..]);
          case None => r := Missing;
        }
      case Parenthesized(inner) => r := TypeNode(file, inner, steps);
      case Intersection(parts) =>
        var results := Parts(file, parts, steps);
        r := Combine(results);
      case Union(parts) =>
        var results := Parts(file, parts, steps);
        r := CombineUnion(results);
      case ArrayOf(element) =>
        if steps[0].Member? { return Unknown; }
        r := TypeNode(file, element, steps[1..]);
      case Operator(inner) => r := TypeNode(file, inner, steps);
      case Reference(head, qualified, args) =>
        if head in PASSTHROUGH_WRAPPERS && args != [] {
          r := TypeNode(file, args[0], steps);
        } else if head in ARRAY_NAMES && args != [] {
          if steps[0].Member? { return Unknown; }
          r := TypeNode(file, args[0], steps[1..]);
        } else if qualified {
          r := Unknown;
        } else {
          var resolved := Resolve(world, file, head);
          if resolved.None? { return Unknown; }
          r := Declaration(resolved.value, steps);
        }
      case Opaque => r := Unknown;
    }

    /** `node.types.map(t => lookupPath(...))`: every branch is walked, in order. */
    method Parts(file: string, parts: seq<Type>, steps: seq<Step>) returns (results: seq<PathLookup>)
      requires |steps| <= bound
      modifies this
      ensures (results, seen) == LookupParts(world, file, parts, steps, old(seen), bound)
      decreases AllKeys(world, bound) - seen, 1, parts
    {
      results := [];
      ghost var total := LookupParts(world, file, parts, steps, seen, bound);
      for i := 0 to |parts|
        invariant old(seen) <= seen
        invariant var rest := LookupParts(world, file, parts[i..], steps, seen, bound);
                  results + rest.0 == total.0 && rest.1 == total.1
      {
        var one := TypeNode(file, parts[i], steps);
        results := results + [one];
      }
      assert parts[|parts|..] == [] && results + [] == results;
    }
  }

  lemma BasesFrom(w: World, file: string, bases: seq<Base>, i: nat, steps: seq<Step>, seen: Seen, bound: nat)
    requires |steps| <= bound && i < |bases|
    ensures var one := LookupBase(w, file, bases[i], steps, seen, bound);
            var rest := LookupBases(w, file, bases[i + 1..], steps, one.1, bound);
            LookupBases(w, file, bases[i..], steps, seen, bound) == ([one.0] + rest.0, rest.1)
  {
    assert bases[i..][0] == bases[i] && bases[i..][1..] == bases[i + 1..];
  }

  lemma Regrouped<T>(xs: seq<T>, x: T, ys: seq<T>)
    ensures xs + ([x] + ys) == xs + [x] + ys
  {}
}

/**
 * The three-valued presence check `lookupPath` of scripts/gen-config-catalog.ts:
 * does a declared config type have a member at this key path?
 */
module TypePath {
  import opened Wrappers
  import opened Text

  /** `ctx.abs` and `node.pos`: the file and position that identify a declaration. */
  datatype DeclId = DeclId(file: string, pos: nat)

  datatype Step = Member(name: string) | Element

  datatype Type =
    | Literal(members: seq<TypeElement>)
    | Parenthesized(inner: Type)
    | Intersection(parts: seq<Type>)
    | Union(parts: seq<Type>)
    | ArrayOf(element: Type)
    | Operator(inner: Type)
    | Reference(head: string, qualified: bool, args: seq<Type>)
    | Opaque  // any node the walk cannot see through

  /** A property signature, whose annotation may be absent, or any other element. */
  datatype TypeElement = Property(name: string, annotation: Option<Type>) | OtherElement

  datatype Base = NamedBase(name: string) | ComputedBase

  datatype Decl = Interface(members: seq<TypeElement>, bases: seq<Base>) | Alias(target: Type)

  /** The parsed files, and what each name means in each file (`declForTypeName`). */
  datatype World = World(decls: map<DeclId, Decl>, names: map<(string, string), DeclId>)

  datatype PathLookup = Found | Missing | Unknown

  /** A visited declaration together with the number of steps left. */
  type Seen = set<(DeclId, nat)>

  const PASSTHROUGH_WRAPPERS := {"Partial", "Required", "Readonly", "NonNullable"}
  const ARRAY_NAMES := {"Array", "ReadonlyArray"}

  /** What `declForTypeName` answers; a name that leads nowhere known is out of reach. */
  function Resolve(w: World, file: string, name: string): (d: Option<DeclId>)
    ensures forall id :: d == Some(id) <==> (file, name) in w.names && w.names[(file, name)] == id && id in w.decls
  {
    if (file, name) in w.names && w.names[(file, name)] in w.decls then Some(w.names[(file, name)]) else None
  }

  /** The property signature that a key leads to: the first one of that name. */
  ghost predicate IsMember(members: seq<TypeElement>, name: string, annotation: Option<Type>) {
    exists i :: 0 <= i < |members| && members[i] == Property(name, annotation) && NotAmong(members[..i], name)
  }

  ghost predicate NotAmong(members: seq<TypeElement>, name: string) {
    forall i :: 0 <= i < |members| ==> !(members[i].Property? && members[i].name == name)
  }

  /** The annotation of the first property with this name. */
  function FindMember(members: seq<TypeElement>, name: string): (r: Option<Option<Type>>)
    ensures r.None? <==> NotAmong(members, name)
    ensures forall a :: r == Some(a) <==> IsMember(members, name, a)
  {
    if members == [] then None
    else if members[0].Property? && members[0].name == name then
      FirstIsMember(members);
      Some(members[0].annotation)
    else
      LaterIsMember(members, name);
      FindMember(members[1..], name)
  }

  lemma FirstIsMember(members: seq<TypeElement>)
    requires members != [] && members[0].Property?
    ensures !NotAmong(members, members[0].name)
    ensures forall a :: IsMember(members, members[0].name, a) <==> a == members[0].annotation
  {
    assert NotAmong(members[..0], members[0].name);
    assert IsMember(members, members[0].name, members[0].annotation);
    forall i | 0 < i <= |members| ensures !NotAmong(members[..i], members[0].name) {
      assert members[..i][0] == members[0];
    }
  }

  lemma LaterIsMember(members: seq<TypeElement>, name: string)
    requires members != [] && !(members[0].Property? && members[0].name == name)
    ensures NotAmong(members, name) <==> NotAmong(members[1..], name)
    ensures forall a :: IsMember(members, name, a) <==> IsMember(members[1..], name, a)
  {
    forall i | 0 < i <= |members| ensures NotAmong(members[..i], name) <==> NotAmong(members[1..][..i - 1], name) {
      assert members[..i] == [members[0]] + members[1..][..i - 1];
      NotAmongCons(members[0], members[1..][..i - 1], name);
    }
    assert members == [members[0]] + members[1..] && members[..|members|] == members;
    NotAmongCons(members[0], members[1..], name);
    forall a ensures IsMember(members, name, a) <==> IsMember(members[1..], name, a) {
      if IsMember(members, name, a) {
        var i :| 0 <= i < |members| && members[i] == Property(name, a) && NotAmong(members[..i], name);
        assert members[1..][i - 1] == Property(name, a);
      }
      if IsMember(members[1..], name, a) {
        var i :| 0 <= i < |members[1..]| && members[1..][i] == Property(name, a) && NotAmong(members[1..][..i], name);
        assert members[i + 1] == Property(name, a) && NotAmong(members[..i + 1], name);
      }
    }
  }

  lemma NotAmongCons(e: TypeElement, rest: seq<TypeElement>, name: string)
    requires !(e.Property? && e.name == name)
    ensures NotAmong([e] + rest, name) <==> NotAmong(rest, name)
  {
    if NotAmong([e] + rest, name) {
      forall i | 0 <= i < |rest| ensures !(rest[i].Property? && rest[i].name == name) {
        assert ([e] + rest)[i + 1] == rest[i];
      }
    }
  }

  /** Any found wins, otherwise any unknown taints. */
  function Combine(rs: seq<PathLookup>): PathLookup {
    if exists i | 0 <= i < |rs| :: rs[i] == Found then Found
    else if exists i | 0 <= i < |rs| :: rs[i] == Unknown then Unknown
    else Missing
  }

  /** Definite on a union only when every branch agrees. */
  function CombineUnion(rs: seq<PathLookup>): PathLookup {
    if forall i | 0 <= i < |rs| :: rs[i] == Found then Found
    else if forall i | 0 <= i < |rs| :: rs[i] == Missing then Missing
    else Unknown
  }

  // ----- the walk, threading the `seen` set its branches share

  /** Every key a walk over at most `bound` steps can add. */
  ghost function AllKeys(w: World, bound: nat): Seen {
    set d, n | d in w.decls && 0 <= n <= bound :: (d, n)
  }

  /** A declaration node: the only place where the guard is consulted. */
  function LookupDecl(w: World, d: DeclId, steps: seq<Step>, seen: Seen, ghost bound: nat): (r: (PathLookup, Seen))
    requires d in w.decls && |steps| <= bound
    ensures seen <= r.1
    decreases AllKeys(w, bound) - seen, 0
  {
    if steps == [] then (Found, seen)
    else if (d, |steps|) in seen then (Unknown, seen)
    else
      assert (d, |steps|) in AllKeys(w, bound) - seen;
      var seen1 := seen + {(d, |steps|)};
      match w.decls[d]
      case Alias(t) => LookupType(w, d.file, t, steps, seen1, bound)
      case Interface(members, bases) =>
        if steps[0].Element? then (Unknown, seen1)
        else
          match FindMember(members, steps[0].name)
          case Some(annotation) =>
            if |steps| == 1 then (Found, seen1)
            else if annotation.None? then (Unknown, seen1)
            else LookupType(w, d.file, annotation.value, steps[1..], seen1, bound)
          case None =>
            var (rs, seen2) := LookupBases(w, d.file, bases, steps, seen1, bound);
            (Combine(rs), seen2)
  }

  function LookupBases(w: World, file: string, bases: seq<Base>, steps: seq<Step>, seen: Seen,
                       ghost bound: nat): (r: (seq<PathLookup>, Seen))
    requires |steps| <= bound
    ensures seen <= r.1 && |r.0| == |bases|
    decreases AllKeys(w, bound) - seen, 2, bases
  {
    if bases == [] then ([], seen)
    else
      var (first, seen1) := LookupBase(w, file, bases[0], steps, seen, bound);
      var (rest, seen2) := LookupBases(w, file, bases[1..], steps, seen1, bound);
      ([first] + rest, seen2)
  }

  function LookupBase(w: World, file: string, base: Base, steps: seq<Step>, seen: Seen,
                      ghost bound: nat): (r: (PathLookup, Seen))
    requires |steps| <= bound
    ensures seen <= r.1
    decreases AllKeys(w, bound) - seen, 1
  {
    match base
    case ComputedBase => (Unknown, seen)
    case NamedBase(name) =>
      match Resolve(w, file, name)
      case None => (Unknown, seen)
      case Some(d) => LookupDecl(w, d, steps, seen, bound)
  }

  /** A type node of file `file`. */
  function LookupType(w: World, file: string, t: Type, steps: seq<Step>, seen: Seen,
                      ghost bound: nat): (r: (PathLookup, Seen))
    requires |steps| <= bound
    ensures seen <= r.1
    decreases AllKeys(w, bound) - seen, 1, t
  {
    if steps == [] then (Found, seen)
    else
      match t
      case Literal(members) =>
        if steps[0].Element? then (Unknown, seen)
        else
          (match FindMember(members, steps[0].name)
           case Some(annotation) =>
             if |steps| == 1 then (Found, seen)
             else if annotation.None? then (Unknown, seen)
             else LookupType(w, file, annotation.value, steps[1..], seen, bound)
           case None => (Missing, seen))
      case Parenthesized(inner) => LookupType(w, file, inner, steps, seen, bound)
      case Intersection(parts) =>
        var (rs, seen1) := LookupParts(w, file, parts, steps, seen, bound);
        (Combine(rs), seen1)
      case Union(parts) =>
        var (rs, seen1) := LookupParts(w, file, parts, steps, seen, bound);
        (CombineUnion(rs), seen1)
      case ArrayOf(element) =>
        if steps[0].Element? then LookupType(w, file, element, steps[1..], seen, bound) else (Unknown, seen)
      case Operator(inner) => LookupType(w, file, inner, steps, seen, bound)
      case Reference(head, qualified, args) =>
        if head in PASSTHROUGH_WRAPPERS && args != [] then LookupType(w, file, args[0], steps, seen, bound)
        else if head in ARRAY_NAMES && args != [] then
          if steps[0].Element? then LookupType(w, file, args[0], steps[1..], seen, bound) else (Unknown, seen)
        else if qualified then (Unknown, seen)
        else
          (match Resolve(w, file, head)
           case None => (Unknown, seen)
           case Some(d) => LookupDecl(w, d, steps, seen, bound))
      case Opaque => (Unknown, seen)
  }

  function LookupParts(w: World, file: string, parts: seq<Type>, steps: seq<Step>, seen: Seen,
                       ghost bound: nat): (r: (seq<PathLookup>, Seen))
    requires |steps| <= bound
    ensures seen <= r.1 && |r.0| == |parts|
    decreases AllKeys(w, bound) - seen, 1, parts
  {
    if parts == [] then ([], seen)
    else
      var (first, seen1) := LookupType(w, file, parts[0], steps, seen, bound);
      var (rest, seen2) := LookupParts(w, file, parts[1..], steps, seen1, bound);
      ([first] + rest, seen2)
  }

  // ----- key paths as text

  /** A path segment: its name once every trailing `[]` is cut off, and how many there were. */
  function ParseSegment(seg: string): (r: (string, nat))
    ensures seg == r.0 + Brackets(r.1) && !EndsInBrackets(r.0)
  {
    if EndsInBrackets(seg) then
      var (name, arrays) := ParseSegment(seg[..|seg| - 2]);
      assert seg == seg[..|seg| - 2] + "[]";
      (name, arrays + 1)
    else (seg, 0)
  }

  predicate EndsInBrackets(s: string) {
    |s| >= 2 && s[|s| - 2..] == "[]"
  }

  function Brackets(n: nat): string {
    if n == 0 then "" else Brackets(n - 1) + "[]"
  }

  function SegmentSteps(seg: string): seq<Step> {
    var (name, arrays) := ParseSegment(seg);
    [Member(name)] + seq(arrays, _ => Element)
  }

  function SegmentsSteps(segs: seq<string>): seq<Step> {
    if segs == [] then [] else SegmentsSteps(segs[..|segs| - 1]) + SegmentSteps(segs[|segs| - 1])
  }

  /** `parsePath` as a function: the steps of the dot-separated segments, in order. */
  function PathSteps(path: string): seq<Step> {
    SegmentsSteps(SplitChar(path, '.'))
  }

  method ParsePath(path: string) returns (steps: seq<Step>)
    ensures steps == PathSteps(path)
  {
    steps := [];
    var segs := SplitChar(path, '.');
    for i := 0 to |segs|
      invariant steps == SegmentsSteps(segs[..i])
    {
      assert segs[..i + 1] == segs[..i] + [segs[i]];
      SegmentsSnoc(segs[..i], segs[i]);
      steps := PushSegment(steps, segs[i]);
    }
    assert segs[..|segs|] == segs;
  }

  /** The body of the loop of `parsePath`. */
  method PushSegment(before: seq<Step>, seg: string) returns (steps: seq<Step>)
    ensures steps == before + SegmentSteps(seg)
  {
    var name, arrays := seg, 0;
    while EndsInBrackets(name)
      invariant ParseSegment(seg) == (ParseSegment(name).0, ParseSegment(name).1 + arrays)
      decreases |name|
    {
      name := name[..|name| - 2];
      arrays := arrays + 1;
    }
    steps := before + [Member(name)];
    for j := 0 to arrays
      invariant steps == before + ([Member(name)] + seq(j, _ => Element))
    {
      steps := steps + [Element];
    }
  }

  /** How `walkSchemaExpr` writes the path of a nested key. */
  function PathText(steps: seq<Step>): string {
    if steps == [] then ""
    else
      var before, last := steps[..|steps| - 1], steps[|steps| - 1];
      match last
      case Element => PathText(before) + "[]"
      case Member(name) => if before == [] then name else PathText(before) + "." + name
  }

  predicate PlainName(name: string) {
    '.' !in name && !EndsInBrackets(name)
  }

  /** A key path starts at a key, and its keys neither hold a dot nor end in `[]`. */
  ghost predicate PlainPath(steps: seq<Step>) {
    && steps != [] && steps[0].Member?
    && forall i :: 0 <= i < |steps| && steps[i].Member? ==> PlainName(steps[i].name)
  }

  lemma StepsOfElement(path: string)
    ensures PathSteps(path + "[]") == PathSteps(path) + [Element]
  {
    var segs := SplitChar(path, '.');
    SplitExtend(path, "[]", '.');
    var before, last := segs[..|segs| - 1], segs[|segs| - 1];
    SegmentsSnoc(before, last + "[]");
    SegmentsSnoc(before, last);
    BracketsAddElement(last);
    assert segs == before + [last];
    hide SegmentsSteps, SegmentSteps;
    Associative(SegmentsSteps(before), SegmentSteps(last), [Element]);
  }

  lemma BracketsAddElement(seg: string)
    ensures SegmentSteps(seg + "[]") == SegmentSteps(seg) + [Element]
  {
    assert (seg + "[]")[..|seg|] == seg;
  }

  lemma SegmentsSnoc(segs: seq<string>, last: string)
    ensures SegmentsSteps(segs + [last]) == SegmentsSteps(segs) + SegmentSteps(last)
  {
    assert (segs + [last])[..|segs|] == segs;
  }

  lemma {:induction false} SegmentsAppend(a: seq<string>, b: seq<string>)
    ensures SegmentsSteps(a + b) == SegmentsSteps(a) + SegmentsSteps(b)
  {
    assert SegmentsSteps([]) == [];
    hide SegmentsSteps, SegmentSteps;
    if b == [] {
      assert a + b == a;
    } else {
      SegmentsAppend(a, b[..|b| - 1]);
      AppendSnoc(a, b[..|b| - 1], b[|b| - 1]);
      assert b == b[..|b| - 1] + [b[|b| - 1]];
    }
  }

  lemma AppendSnoc(a: seq<string>, before: seq<string>, last: string)
    requires SegmentsSteps(a + before) == SegmentsSteps(a) + SegmentsSteps(before)
    ensures SegmentsSteps(a + (before + [last])) == SegmentsSteps(a) + SegmentsSteps(before + [last])
  {
    SegmentsSnoc(a + before, last);
    SegmentsSnoc(before, last);
    hide SegmentsSteps, SegmentSteps;
    Associative(a, before, [last]);
    Associative(SegmentsSteps(a), SegmentsSteps(before), SegmentSteps(last));
  }

  lemma Associative<T>(x: seq<T>, y: seq<T>, z: seq<T>)
    ensures (x + y) + z == x + (y + z)
  {}

  lemma StepsOfMember(path: string, name: string)
    ensures PathSteps(path + "." + name) == PathSteps(path) + PathSteps(name)
  {
    SplitAppend(path, name, '.');
    SegmentsAppend(SplitChar(path, '.'), SplitChar(name, '.'));
  }

  lemma StepsOfPlain(name: string)
    requires PlainName(name)
    ensures PathSteps(name) == [Member(name)]
  {
    SplitPlain(name, '.');
    assert SegmentsSteps([name]) == SegmentsSteps([]) + SegmentSteps(name);
  }

  lemma {:induction false} PlainRoundTrip(steps: seq<Step>)
    requires PlainPath(steps)
    ensures PathSteps(PathText(steps)) == steps
  {
    var before, last := steps[..|steps| - 1], steps[|steps| - 1];
    if before == [] {
      StepsOfPlain(last.name);
    } else {
      PlainRoundTrip(before);
      match last
      case Element => StepsOfElement(PathText(before));
      case Member(name) =>
        StepsOfMember(PathText(before), name);
        StepsOfPlain(name);
    }
  }

  lemma {:induction false} SegmentsArePlain(segs: seq<string>)
    requires forall s :: s in segs ==> '.' !in s
    ensures forall st :: st in SegmentsSteps(segs) && st.Member? ==> PlainName(st.name)
    ensures segs != [] ==> SegmentsSteps(segs) != [] && SegmentsSteps(segs)[0].Member?
  {
    if segs != [] {
      SegmentsArePlain(segs[..|segs| - 1]);
      var last := segs[|segs| - 1];
      var name, arrays := ParseSegment(last).0, ParseSegment(last).1;
      forall k | 0 <= k < |name| ensures name[k] != '.' {
        assert last[k] == name[k] && last[k] in last && last in segs;
      }
    }
  }

  /** Parsing gives back the steps a key path was written from exactly for plain paths. */
  lemma PathRoundTrip(steps: seq<Step>)
    ensures PathSteps(PathText(steps)) == steps <==> PlainPath(steps)
  {
    if PlainPath(steps) {
      PlainRoundTrip(steps);
    } else if PathSteps(PathText(steps)) == steps {
      SegmentsArePlain(SplitChar(PathText(steps), '.'));
      forall i | 0 <= i < |steps| && steps[i].Member? ensures PlainName(steps[i].name) {
        assert steps[i] in steps;
      }
    }
  }

  /** A key with a dot in it is read back as two keys. */
  lemma {:induction false} DottedKeyLost()
    ensures PathText([Member("a.b")]) == "a.b"
    ensures PathSteps(PathText([Member("a.b")])) == [Member("a"), Member("b")]
  {
    assert "a" + "." + "b" == "a.b";
    StepsOfMember("a", "b");
    StepsOfPlain("a");
    StepsOfPlain("b");
    assert [Member("a")] + [Member("b")] == [Member("a"), Member("b")];
  }
}

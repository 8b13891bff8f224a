/**
 * Which texts a joined text includes, read off its parts: inside one part and the
 * separators next to it, or across whole separators. Nothing is assumed of the separator.
 */
module Windows {
  import opened Text
  import opened Substring

  /** A part with the separator in front of it, if there is one. */
  function LeftOf(parts: seq<string>, i: nat, r: string): string
    requires i < |parts|
  {
    if i > 0 then r + parts[i] else parts[i]
  }

  /** A part with the separator behind it, if there is one. */
  function RightOf(parts: seq<string>, i: nat, r: string): string
    requires i < |parts|
  {
    if i < |parts| - 1 then parts[i] + r else parts[i]
  }

  /** A part with the separators on both sides. */
  function Around(parts: seq<string>, i: nat, r: string): string
    requires i < |parts|
  {
    if i > 0 then r + RightOf(parts, i, r) else RightOf(parts, i, r)
  }

  /** The parts from number `a` up to `b`, each with the separator behind it. */
  function Middle(parts: seq<string>, a: nat, b: nat, r: string): string
    requires a <= b <= |parts|
    decreases b - a
  {
    if a == b then "" else parts[a] + r + Middle(parts, a + 1, b, r)
  }

  /** `f` is the last `s` characters up to part `i`, whole separators and parts, and the first `t` from part `j` on. */
  predicate SpansAt(parts: seq<string>, r: string, f: string, i: nat, j: nat, s: nat, t: nat) {
    && i < j < |parts|
    && s <= |LeftOf(parts, i, r)| && t <= |RightOf(parts, j, r)|
    && f == LeftOf(parts, i, r)[|LeftOf(parts, i, r)| - s..]
      + (r + (Middle(parts, i + 1, j, r) + RightOf(parts, j, r)[..t]))
  }

  ghost predicate Spans(parts: seq<string>, r: string, f: string) {
    exists i: nat, j: nat, s: nat, t: nat :: SpansAt(parts, r, f, i, j, s, t)
  }

  predicate InOneWindow(parts: seq<string>, r: string, f: string) {
    exists i | 0 <= i < |parts| :: Includes(Around(parts, i, r), f)
  }

  /** The parts and the separators between them form `f` somewhere. */
  ghost predicate Forms(parts: seq<string>, r: string, f: string) {
    InOneWindow(parts, r, f) || Spans(parts, r, f)
  }

  // ----- the joined text from a part on

  function Body(parts: seq<string>, i: nat, r: string): string
    requires i < |parts|
    decreases |parts| - i
  {
    if i == |parts| - 1 then parts[i] else parts[i] + r + Body(parts, i + 1, r)
  }

  lemma {:induction false} BodyIsJoin(parts: seq<string>, i: nat, r: string)
    requires i < |parts|
    ensures Body(parts, i, r) == Join(parts[i..], r)
    decreases |parts| - i
  {
    if i < |parts| - 1 {
      BodyIsJoin(parts, i + 1, r);
      assert parts[i..][1..] == parts[i + 1..];
    }
  }

  /** The body with the separator in front of it, if there is one. */
  function Rest(parts: seq<string>, i: nat, r: string): string
    requires i < |parts|
  {
    if i > 0 then r + Body(parts, i, r) else Body(parts, i, r)
  }

  lemma {:induction false} RestSplits(parts: seq<string>, i: nat, r: string)
    requires i < |parts|
    ensures i == |parts| - 1 ==> Rest(parts, i, r) == LeftOf(parts, i, r) == Around(parts, i, r)
    ensures i < |parts| - 1 ==> Around(parts, i, r) == LeftOf(parts, i, r) + r
    ensures i < |parts| - 1 ==> Rest(parts, i, r) == LeftOf(parts, i, r) + r + Body(parts, i + 1, r)
    ensures i < |parts| - 1 ==> Rest(parts, i, r) == LeftOf(parts, i, r) + Rest(parts, i + 1, r)
  {
    hide Body;
    if i < |parts| - 1 {
      BodyCons(parts, i, r);
      var body := Body(parts, i + 1, r);
      Regroup(r, parts[i], r);
      Regroup(r, parts[i] + r, body);
      Regroup(LeftOf(parts, i, r), r, body);
    } else {
      BodyEnds(parts, i, r);
    }
  }

  lemma Regroup(a: string, b: string, c: string)
    ensures a + (b + c) == a + b + c
  {}

  lemma BodyCons(parts: seq<string>, i: nat, r: string)
    requires i < |parts| - 1
    ensures Body(parts, i, r) == parts[i] + r + Body(parts, i + 1, r)
  {}

  lemma BodyEnds(parts: seq<string>, i: nat, r: string)
    requires i == |parts| - 1
    ensures Body(parts, i, r) == parts[i]
  {}

  lemma {:induction false} RestIsEnd(parts: seq<string>, i: nat, r: string)
    requires i < |parts|
    ensures EndsWith(Body(parts, 0, r), Rest(parts, i, r))
  {
    if i > 0 {
      RestIsEnd(parts, i - 1, r);
      RestSplits(parts, i - 1, r);
      EndOfEnd(Body(parts, 0, r), LeftOf(parts, i - 1, r), Rest(parts, i, r));
    }
  }

  lemma EndOfEnd(s: string, a: string, b: string)
    requires EndsWith(s, a + b)
    ensures EndsWith(s, b)
  {
    assert s[|s| - |b|..] == s[|s| - |a + b|..][|a|..];
  }

  /** A beginning of the body is whole parts with their separators and the start of one more. */
  lemma {:induction false} BodyStart(parts: seq<string>, i: nat, r: string, n: nat) returns (j: nat, t: nat)
    requires i < |parts| && n <= |Body(parts, i, r)|
    ensures i <= j < |parts| && t <= |RightOf(parts, j, r)|
    ensures Body(parts, i, r)[..n] == Middle(parts, i, j, r) + RightOf(parts, j, r)[..t]
    decreases |parts| - i
  {
    hide *;
    BodyBegins(parts, i, r);
    if n <= |RightOf(parts, i, r)| {
      j, t := i, n;
    } else {
      BodyCons(parts, i, r);
      j, t := BodyStart(parts, i + 1, r, n - |RightOf(parts, i, r)|);
      MiddleCons(parts, i, j, r);
      LongerStart(parts[i] + r, Body(parts, i + 1, r), n);
      Regroup(parts[i] + r, Middle(parts, i + 1, j, r), RightOf(parts, j, r)[..t]);
    }
  }

  lemma BodyBegins(parts: seq<string>, i: nat, r: string)
    requires i < |parts|
    ensures var body, first := Body(parts, i, r), RightOf(parts, i, r);
            && |first| <= |body| && (i == |parts| - 1 ==> |first| == |body|)
            && (i < |parts| - 1 ==> first == parts[i] + r)
            && forall n: nat :: n <= |first| ==> body[..n] == Middle(parts, i, i, r) + first[..n]
  {
    hide Middle;
    assert Middle(parts, i, i, r) == "" by { EmptyMiddle(parts, i, r); }
    forall n: nat | n <= |RightOf(parts, i, r)|
      ensures Body(parts, i, r)[..n] == "" + RightOf(parts, i, r)[..n]
    {}
  }

  lemma EmptyMiddle(parts: seq<string>, i: nat, r: string)
    requires i <= |parts|
    ensures Middle(parts, i, i, r) == ""
  {}

  lemma LongerStart(first: string, body: string, n: nat)
    requires |first| <= n <= |first + body|
    ensures (first + body)[..n] == first + body[..n - |first|]
  {}

  lemma {:induction false} StartOfBody(parts: seq<string>, i: nat, j: nat, r: string, t: nat)
    requires i <= j < |parts| && t <= |RightOf(parts, j, r)|
    ensures StartsWith(Body(parts, i, r), Middle(parts, i, j, r) + RightOf(parts, j, r)[..t])
    decreases j - i
  {
    if i < j {
      StartOfBody(parts, i + 1, j, r, t);
      var start := Middle(parts, i + 1, j, r) + RightOf(parts, j, r)[..t];
      var first := parts[i] + r;
      hide Middle, Body;
      MiddleCons(parts, i, j, r);
      assert Middle(parts, i, j, r) + RightOf(parts, j, r)[..t] == first + start;
      assert (first + Body(parts, i + 1, r))[..|first + start|] == first + Body(parts, i + 1, r)[..|start|];
    } else {
      assert Middle(parts, i, j, r) + RightOf(parts, j, r)[..t] == RightOf(parts, j, r)[..t];
    }
  }

  lemma MiddleCons(parts: seq<string>, i: nat, j: nat, r: string)
    requires i < j < |parts|
    ensures Middle(parts, i, j, r) == parts[i] + r + Middle(parts, i + 1, j, r)
    ensures Body(parts, i, r) == parts[i] + r + Body(parts, i + 1, r)
  {}

  // ----- the characterisation

  lemma {:induction false} Located(parts: seq<string>, r: string, f: string, i: nat, x: nat)
    requires i < |parts| && OccursAt(Rest(parts, i, r), f, x)
    ensures Forms(parts, r, f)
    decreases |parts| - i
  {
    hide *;
    RestSplits(parts, i, r);
    if x + |f| <= |Around(parts, i, r)| {
      InWindow(parts, r, f, i, x);
    } else if i == |parts| - 1 {
      OccursIs(Rest(parts, i, r), f, x);
    } else if x >= |LeftOf(parts, i, r)| {
      OccursBehind(LeftOf(parts, i, r), Rest(parts, i + 1, r), f, x);
      Located(parts, r, f, i + 1, x - |LeftOf(parts, i, r)|);
    } else {
      Across(parts, r, f, i, x);
    }
  }

  lemma OccursBehind(a: string, b: string, f: string, x: nat)
    requires OccursAt(a + b, f, x) && x >= |a|
    ensures OccursAt(b, f, x - |a|)
  {
    assert (a + b)[x..x + |f|] == b[x - |a|..x - |a| + |f|];
  }

  lemma {:induction false} InWindow(parts: seq<string>, r: string, f: string, i: nat, x: nat)
    requires i < |parts| && OccursAt(Rest(parts, i, r), f, x) && x + |f| <= |Around(parts, i, r)|
    ensures Forms(parts, r, f)
  {
    hide *;
    AroundBegins(parts, i, r);
    OccursInStart(Rest(parts, i, r), Around(parts, i, r), f, x);
    Windowed(parts, r, f, i);
  }

  lemma AroundBegins(parts: seq<string>, i: nat, r: string)
    requires i < |parts|
    ensures StartsWith(Rest(parts, i, r), Around(parts, i, r))
  {
    RestSplits(parts, i, r);
    hide Rest, Around, Body, LeftOf;
    if i < |parts| - 1 {
      SliceAppend(LeftOf(parts, i, r) + r, Body(parts, i + 1, r), |LeftOf(parts, i, r) + r|);
    }
  }

  lemma OccursInStart(s: string, start: string, f: string, x: nat)
    requires StartsWith(s, start) && OccursAt(s, f, x) && x + |f| <= |start|
    ensures Includes(start, f)
  {
    assert s[..|start|][x..x + |f|] == s[x..x + |f|];
    assert OccursAt(start, f, x);
  }

  lemma Windowed(parts: seq<string>, r: string, f: string, i: nat)
    requires i < |parts| && Includes(Around(parts, i, r), f)
    ensures Forms(parts, r, f)
  {}

  lemma {:induction false} Across(parts: seq<string>, r: string, f: string, i: nat, x: nat)
    requires i < |parts| - 1 && OccursAt(Rest(parts, i, r), f, x)
    requires x < |LeftOf(parts, i, r)| && x + |f| > |Around(parts, i, r)|
    ensures Forms(parts, r, f)
  {
    hide *;
    RestSplits(parts, i, r);
    var left, body := LeftOf(parts, i, r), Body(parts, i + 1, r);
    OccursIs(left + r + body, f, x);
    var n := x + |f| - |left| - |r|;
    SliceOfFour(left, r, body, x, n);
    var j, t := BodyStart(parts, i + 1, r, n);
    MakesSpan(parts, r, f, i, j, |left| - x, t);
  }

  lemma OccursIs(s: string, f: string, x: nat)
    requires OccursAt(s, f, x)
    ensures x + |f| <= |s| && f == s[x..x + |f|]
  {}

  lemma MakesSpan(parts: seq<string>, r: string, f: string, i: nat, j: nat, s: nat, t: nat)
    requires i < j < |parts| && s <= |LeftOf(parts, i, r)| && t <= |RightOf(parts, j, r)|
    requires f == LeftOf(parts, i, r)[|LeftOf(parts, i, r)| - s..]
                  + (r + (Middle(parts, i + 1, j, r) + RightOf(parts, j, r)[..t]))
    ensures Forms(parts, r, f)
  {
    hide LeftOf, RightOf, Middle, InOneWindow;
    assert SpansAt(parts, r, f, i, j, s, t);
  }

  lemma SliceOfFour(left: string, r: string, body: string, x: nat, n: nat)
    requires x <= |left| && n <= |body|
    ensures (left + r + body)[x..|left| + |r| + n] == left[x..] + (r + body[..n])
  {}

  lemma {:induction false} SpansInclude(parts: seq<string>, r: string, f: string, i: nat, j: nat, s: nat, t: nat)
    requires SpansAt(parts, r, f, i, j, s, t)
    ensures Includes(Rest(parts, i, r), f)
  {
    SpanFacts(parts, r, f, i, j, s, t);
    hide *;
    RestSplits(parts, i, r);
    StartOfBody(parts, i + 1, j, r, t);
    Placed(LeftOf(parts, i, r), r, Body(parts, i + 1, r), Middle(parts, i + 1, j, r) + RightOf(parts, j, r)[..t], f, s);
  }

  lemma SpanFacts(parts: seq<string>, r: string, f: string, i: nat, j: nat, s: nat, t: nat)
    requires SpansAt(parts, r, f, i, j, s, t)
    ensures i < j < |parts| && s <= |LeftOf(parts, i, r)| && t <= |RightOf(parts, j, r)|
    ensures f == LeftOf(parts, i, r)[|LeftOf(parts, i, r)| - s..]
                 + (r + (Middle(parts, i + 1, j, r) + RightOf(parts, j, r)[..t]))
  {
    hide LeftOf, RightOf, Middle;
  }

  lemma Placed(left: string, r: string, body: string, start: string, f: string, s: nat)
    requires s <= |left| && StartsWith(body, start) && f == left[|left| - s..] + (r + start)
    ensures Includes(left + r + body, f)
  {
    SliceOfFour(left, r, body, |left| - s, |start|);
    assert OccursAt(left + r + body, f, |left| - s);
  }

  lemma IncludesTransitively(s: string, t: string, f: string)
    requires Includes(t, f) && (StartsWith(s, t) || EndsWith(s, t))
    ensures Includes(s, f)
  {
    var j :| 0 <= j <= |t| && OccursAt(t, f, j);
    if StartsWith(s, t) {
      assert s[j..j + |f|] == s[..|t|][j..j + |f|];
      assert OccursAt(s, f, j);
    } else {
      var d := |s| - |t|;
      assert s[d + j..d + j + |f|] == s[d..][j..j + |f|];
      assert OccursAt(s, f, d + j);
    }
  }

  /** A joined text includes `f` exactly where its parts and separators form it. */
  lemma {:induction false} JoinIncludesIff(parts: seq<string>, r: string, f: string)
    requires parts != []
    ensures Includes(Join(parts, r), f) <==> Forms(parts, r, f)
  {
    var text := Body(parts, 0, r);
    BodyIsJoin(parts, 0, r);
    assert parts[0..] == parts;
    if j :| 0 <= j <= |text| && OccursAt(text, f, j) { Located(parts, r, f, 0, j); }
    hide Includes, Body, Join, OccursAt;
    if i: nat :| i < |parts| && Includes(Around(parts, i, r), f) {
      WindowInside(parts, i, r, f);
    }
    if i: nat, j: nat, s: nat, t: nat :| SpansAt(parts, r, f, i, j, s, t) {
      SpansInclude(parts, r, f, i, j, s, t);
      RestIsEnd(parts, i, r);
      IncludesTransitively(text, Rest(parts, i, r), f);
    }
  }

  lemma {:induction false} WindowInside(parts: seq<string>, i: nat, r: string, f: string)
    requires i < |parts| && Includes(Around(parts, i, r), f)
    ensures Includes(Body(parts, 0, r), f)
  {
    hide *;
    RestIsEnd(parts, i, r);
    AroundBegins(parts, i, r);
    IncludesTransitively(Rest(parts, i, r), Around(parts, i, r), f);
    IncludesTransitively(Body(parts, 0, r), Rest(parts, i, r), f);
  }

  /** A form that does not hold the separator is formed in one window only. */
  lemma {:induction false} OneWindow(parts: seq<string>, r: string, f: string)
    requires !Includes(f, r)
    ensures Forms(parts, r, f) <==> InOneWindow(parts, r, f)
  {
    hide SpansAt, Includes, InOneWindow;
    if i: nat, j: nat, s: nat, t: nat :| SpansAt(parts, r, f, i, j, s, t) {
      SpanHolds(parts, r, f, i, j, s, t);
    }
  }

  lemma {:induction false} SpanHolds(parts: seq<string>, r: string, f: string, i: nat, j: nat, s: nat, t: nat)
    requires SpansAt(parts, r, f, i, j, s, t)
    ensures Includes(f, r)
  {
    hide LeftOf, RightOf, Middle, Includes;
    var left := LeftOf(parts, i, r);
    HoldsMiddle(left[|left| - s..], r, Middle(parts, i + 1, j, r) + RightOf(parts, j, r)[..t]);
  }

  lemma HoldsMiddle(a: string, r: string, b: string)
    ensures Includes(a + (r + b), r)
  {
    assert (a + (r + b))[|a|..|a| + |r|] == r;
    assert OccursAt(a + (r + b), r, |a|);
  }
}

/**
 * Forms that do not meet: what an occurrence next to another form can look like, how
 * splitting and replacing treat the two sides of a seam, and which texts a text includes.
 */
module Seams {
  import opened Text
  import opened Substring

  /** A proper end of one form, `k` long, is the start of the other. */
  ghost predicate OverlapAt(find: string, replace: string, k: nat) {
    && 0 < k < |find| && k < |replace|
    && (find[|find| - k..] == replace[..k] || replace[|replace| - k..] == find[..k])
  }

  ghost predicate NoOverlap(find: string, replace: string) {
    forall k: nat :: !OverlapAt(find, replace, k)
  }

  /** Neither form contains the other or runs into it. */
  ghost predicate Separate(p: string, q: string) {
    !Includes(p, q) && !Includes(q, p) && NoOverlap(p, q)
  }

  lemma {:induction false} SeparateBothWays(p: string, q: string)
    requires Separate(p, q)
    ensures Separate(q, p)
  {
    forall k: nat ensures !OverlapAt(q, p, k) {
      assert !OverlapAt(p, q, k);
    }
  }

  // ----- an occurrence at a seam

  lemma {:induction false} SliceOfThree(a: string, r: string, b: string, i: nat, j: nat)
    requires i <= j <= |a| + |r| + |b|
    ensures j <= |a| ==> (a + r + b)[i..j] == a[i..j]
    ensures |a| <= i && j <= |a| + |r| ==> (a + r + b)[i..j] == r[i - |a|..j - |a|]
    ensures |a| + |r| <= i ==> (a + r + b)[i..j] == b[i - |a| - |r|..j - |a| - |r|]
  {}

  lemma {:induction false} SliceOfSlice(s: string, i: nat, j: nat, lo: nat, hi: nat)
    requires i <= j <= |s| && lo <= hi <= j - i
    ensures s[i..j][lo..hi] == s[i + lo..i + hi]
  {
    assert forall k :: 0 <= k < hi - lo ==> s[i..j][lo..hi][k] == s[i + lo + k];
  }

  lemma {:induction false} OccursInside(a: string, r: string, b: string, find: string, j: nat)
    requires OccursAt(a + r + b, find, j)
    requires j + |find| <= |a| || (|a| <= j && j + |find| <= |a| + |r|) || |a| + |r| <= j
    ensures Includes(a, find) || Includes(r, find) || Includes(b, find)
  {
    SliceOfThree(a, r, b, j, j + |find|);
    if j + |find| <= |a| {
      assert OccursAt(a, find, j);
    } else if j + |find| <= |a| + |r| && |a| <= j {
      assert OccursAt(r, find, j - |a|);
    } else {
      assert OccursAt(b, find, j - |a| - |r|);
    }
  }

  lemma {:induction false} OccursAround(a: string, r: string, b: string, find: string, j: nat)
    requires OccursAt(a + r + b, find, j) && j <= |a| && |a| + |r| <= j + |find|
    ensures Includes(find, r)
  {
    assert (a + r + b)[|a|..|a| + |r|] == r;
    OccursWithin(a + r + b, find, j, r, |a|);
  }

  lemma {:induction false} OccursWithin(s: string, f: string, j: nat, r: string, i: nat)
    requires OccursAt(s, f, j) && OccursAt(s, r, i) && j <= i && i + |r| <= j + |f|
    ensures Includes(f, r)
  {
    SliceOfSlice(s, j, j + |f|, i - j, i - j + |r|);
    assert OccursAt(f, r, i - j);
  }

  lemma {:induction false} OccursIntoStart(a: string, r: string, b: string, find: string, j: nat)
    requires OccursAt(a + r + b, find, j) && j < |a| < j + |find| < |a| + |r|
    ensures OverlapAt(find, r, j + |find| - |a|)
  {
    var end := j + |find|;
    SliceOfThree(a, r, b, |a|, end);
    SliceOfSlice(a + r + b, j, end, |a| - j, |find|);
    assert find[|a| - j..] == find[|a| - j..|find|] && r[..end - |a|] == r[0..end - |a|];
  }

  lemma {:induction false} OccursFromEnd(a: string, r: string, b: string, find: string, j: nat)
    requires OccursAt(a + r + b, find, j) && |a| < j < |a| + |r| < j + |find|
    ensures OverlapAt(find, r, |a| + |r| - j)
  {
    var k := |a| + |r| - j;
    SliceOfThree(a, r, b, j, |a| + |r|);
    SliceOfSlice(a + r + b, j, j + |find|, 0, k);
    assert find[..k] == find[0..k] && r[|r| - k..] == r[|r| - k..|r|];
  }

  /** The only ways in which a form can occur in three parts put together. */
  lemma {:induction false} SeamCases(a: string, r: string, b: string, find: string, j: nat)
    requires OccursAt(a + r + b, find, j) && find != ""
    ensures Includes(a, find) || Includes(b, find) || Includes(r, find) || Includes(find, r) || !NoOverlap(find, r)
  {
    var end := j + |find|;
    hide Includes, OverlapAt;
    if end <= |a| || (|a| <= j && end <= |a| + |r|) || |a| + |r| <= j {
      OccursInside(a, r, b, find, j);
    } else if j <= |a| && |a| + |r| <= end {
      OccursAround(a, r, b, find, j);
    } else if j < |a| {
      OccursIntoStart(a, r, b, find, j);
    } else {
      OccursFromEnd(a, r, b, find, j);
    }
  }

  lemma {:induction false} JoinFree(parts: seq<string>, r: string, find: string)
    requires parts != [] && find != "" && forall x :: x in parts ==> !Includes(x, find)
    requires NoOverlap(find, r) && !Includes(find, r) && !Includes(r, find)
    ensures !Includes(Join(parts, r), find)
  {
    if |parts| > 1 {
      JoinFree(parts[1..], r, find);
      forall j: nat ensures !OccursAt(Join(parts, r), find, j) {
        if OccursAt(Join(parts, r), find, j) { SeamCases(parts[0], r, Join(parts[1..], r), find, j); }
      }
    }
  }

  /** Next to a separate form every occurrence lies on one side. */
  lemma {:induction false} OneSide(a: string, r: string, b: string, q: string, j: nat)
    requires Separate(q, r) && OccursAt(a + r + b, q, j)
    ensures j + |q| <= |a| || |a| + |r| <= j
  {
    var end := j + |q|;
    hide Includes, OverlapAt;
    if |a| <= j && end <= |a| + |r| {
      WithinForm(a, r, b, q, j);
    } else if j <= |a| && |a| + |r| <= end {
      OccursAround(a, r, b, q, j);
    } else if j < |a| && |a| < end {
      OccursIntoStart(a, r, b, q, j);
    } else if j < |a| + |r| && |a| + |r| < end {
      OccursFromEnd(a, r, b, q, j);
    }
  }

  lemma {:induction false} WithinForm(a: string, r: string, b: string, q: string, j: nat)
    requires OccursAt(a + r + b, q, j) && |a| <= j && j + |q| <= |a| + |r|
    ensures Includes(r, q)
  {
    SliceOfThree(a, r, b, j, j + |q|);
    assert OccursAt(r, q, j - |a|);
  }

  lemma {:induction false} OccursSeam(a: string, r: string, b: string, q: string, j: nat)
    requires Separate(q, r)
    ensures OccursAt(a + r + b, q, j) <==> OccursAt(a, q, j) || (j >= |a| + |r| && OccursAt(b, q, j - |a| - |r|))
  {
    hide Separate;
    var s, n := a + r + b, |a| + |r|;
    if OccursAt(s, q, j) { OneSide(a, r, b, q, j); }
    if j + |q| <= |s| {
      SliceOfThree(a, r, b, j, j + |q|);
    }
  }

  // ----- splitting across a seam

  /** The last piece of one split and the first of another, with the seam between them. */
  function Glue(left: seq<string>, r: string, right: seq<string>): seq<string>
    requires left != [] && right != []
  {
    left[..|left| - 1] + [left[|left| - 1] + r + right[0]] + right[1..]
  }

  lemma {:induction false} SplitSeam(a: string, r: string, b: string, q: string)
    requires q != "" && Separate(q, r)
    ensures Split(a + r + b, q) == Glue(Split(a, q), r, Split(b, q))
    decreases |a|
  {
    hide *;
    var i := IndexFrom(a, q, 0);
    if i == -1 {
      SplitNone(a, q);
      SplitBehind(a, r, b, q);
    } else {
      FirstInFront(a, r, b, q);
      SplitSome(a, q);
      SplitSome(a + r + b, q);
      var rest := a[i + |q|..];
      SliceOfThree(a, r, b, 0, i);
      assert (a + r + b)[i + |q|..] == rest + r + b && (a + r + b)[..i] == a[..i];
      SplitSeam(rest, r, b, q);
      GlueCons(a[..i], Split(rest, q), r, Split(b, q));
    }
  }

  lemma GlueCons(x: string, left: seq<string>, r: string, right: seq<string>)
    requires left != [] && right != []
    ensures Glue([x] + left, r, right) == [x] + Glue(left, r, right)
  {
    assert ([x] + left)[..|left|] == [x] + left[..|left| - 1];
  }

  lemma {:induction false} FirstInFront(a: string, r: string, b: string, q: string)
    requires q != "" && Separate(q, r) && IndexFrom(a, q, 0) != -1
    ensures IndexFrom(a + r + b, q, 0) == IndexFrom(a, q, 0)
  {
    var s, i := a + r + b, IndexFrom(a, q, 0);
    forall j: nat | j <= i ensures OccursAt(s, q, j) <==> OccursAt(a, q, j) {
      OccursSeam(a, r, b, q, j);
      InFront(a, q, i);
    }
  }

  lemma InFront(a: string, q: string, i: int)
    requires OccursAt(a, q, i)
    ensures 0 <= i && i + |q| <= |a|
  {}

  /** Without an occurrence in front, the first one is the first one behind the seam. */
  lemma {:induction false} IndexBehind(a: string, r: string, b: string, q: string)
    requires q != "" && Separate(q, r) && IndexFrom(a, q, 0) == -1
    ensures IndexFrom(a + r + b, q, 0) == if IndexFrom(b, q, 0) == -1 then -1 else |a| + |r| + IndexFrom(b, q, 0)
  {
    var s, n, i := a + r + b, |a| + |r|, IndexFrom(b, q, 0);
    hide Separate;
    forall j: nat ensures OccursAt(s, q, j) <==> j >= n && OccursAt(b, q, j - n) {
      OccursSeam(a, r, b, q, j);
    }
    hide OccursAt;
    if i != -1 {
      assert (n + i) - n == i && OccursAt(s, q, n + i);
      FirstIs(s, q, n + i);
    }
  }

  lemma {:induction false} SplitBehind(a: string, r: string, b: string, q: string)
    requires q != "" && Separate(q, r) && IndexFrom(a, q, 0) == -1
    ensures Split(a + r + b, q) == Glue([a], r, Split(b, q))
  {
    hide *;
    var s, i := a + r + b, IndexFrom(b, q, 0);
    IndexBehind(a, r, b, q);
    if i == -1 {
      SplitNone(s, q);
      SplitNone(b, q);
      GlueEnds(a, r, b, []);
    } else {
      SplitSome(s, q);
      SplitSome(b, q);
      var n := |a| + |r| + i;
      assert s[..n] == a + r + b[..i] && s[n + |q|..] == b[i + |q|..];
      GlueEnds(a, r, b[..i], Split(b[i + |q|..], q));
    }
  }

  lemma FirstIs(s: string, q: string, i: nat)
    requires OccursAt(s, q, i) && forall j: nat :: j < i ==> !OccursAt(s, q, j)
    ensures IndexFrom(s, q, 0) == i
  {}

  lemma GlueEnds(a: string, r: string, b: string, rest: seq<string>)
    ensures Glue([a], r, [b] + rest) == [a + r + b] + rest
    ensures [b] + [] == [b] && [a + r + b] + [] == [a + r + b]
  {}

  // ----- counting and replacing across a seam

  /** `text.split(find).join(replace)` */
  function Apply(text: string, find: string, replace: string): string
    requires find != ""
  {
    Join(Split(text, find), replace)
  }

  lemma {:induction false} CountSeam(a: string, r: string, b: string, q: string)
    requires q != "" && Separate(q, r)
    ensures Count(a + r + b, q) == Count(a, q) + Count(b, q)
  {
    SplitSeam(a, r, b, q);
  }

  lemma {:induction false} JoinAppend(a: seq<string>, b: seq<string>, s: string)
    requires a != [] && b != []
    ensures Join(a + b, s) == Join(a, s) + s + Join(b, s)
  {
    assert (a + b)[1..] == a[1..] + b;
    if |a| > 1 {
      JoinAppend(a[1..], b, s);
    } else {
      assert a[1..] + b == b;
    }
  }

  lemma {:induction false} JoinGlue(left: seq<string>, r: string, right: seq<string>, s: string)
    requires left != [] && right != []
    ensures Join(Glue(left, r, right), s) == Join(left, s) + r + Join(right, s)
    decreases |left|
  {
    if |left| > 1 {
      JoinGlue(left[1..], r, right, s);
      assert left == [left[0]] + left[1..];
      GlueCons(left[0], left[1..], r, right);
      assert Glue(left, r, right)[1..] == Glue(left[1..], r, right);
      hide Glue;
      assert Join(left, s) == left[0] + s + Join(left[1..], s);
    } else if |right| > 1 {
      GlueEnds(left[0], r, right[0], right[1..]);
      assert right == [right[0]] + right[1..] && left == [left[0]];
      assert ([left[0] + r + right[0]] + right[1..])[1..] == right[1..];
    } else {
      GlueEnds(left[0], r, right[0], []);
      assert right == [right[0]] + [] && left == [left[0]];
    }
  }

  /** Replacing one form leaves a separate one where it is. */
  lemma {:induction false} ApplySeam(a: string, r: string, b: string, q: string, s: string)
    requires q != "" && Separate(q, r)
    ensures Apply(a + r + b, q, s) == Apply(a, q, s) + r + Apply(b, q, s)
  {
    SplitSeam(a, r, b, q);
    JoinGlue(Split(a, q), r, Split(b, q), s);
  }

  lemma {:induction false} CountJoined(parts: seq<string>, r: string, q: string)
    requires q != "" && Separate(q, r) && parts != []
    ensures Count(Join(parts, r), q) == SumCounts(parts, q)
  {
    if |parts| > 1 {
      CountJoined(parts[1..], r, q);
      hide Separate, Count;
      CountSeam(parts[0], r, Join(parts[1..], r), q);
    } else {
      assert SumCounts(parts[1..], q) == 0;
    }
  }

  /** Replacing one form by another changes the count of no form separate from both. */
  lemma {:induction false} CountKept(text: string, find: string, replace: string, q: string)
    requires find != "" && q != "" && Separate(q, find) && Separate(q, replace)
    ensures Count(Apply(text, find, replace), q) == Count(text, q)
  {
    JoinSplitBy(text, find);
    CountJoined(Split(text, find), find, q);
    CountJoined(Split(text, find), replace, q);
  }

  // ----- replacements of separate forms commute

  lemma {:induction false} ApplyNone(text: string, find: string, replace: string)
    requires find != "" && Count(text, find) == 0
    ensures Apply(text, find, replace) == text
  {
    CountZero(text, find);
  }

  lemma {:induction false} ApplyFirst(text: string, find: string, replace: string)
    requires find != "" && IndexFrom(text, find, 0) != -1
    ensures var i := IndexFrom(text, find, 0);
            && 0 <= i && i + |find| <= |text| && text == text[..i] + find + text[i + |find|..]
            && Apply(text, find, replace) == text[..i] + replace + Apply(text[i + |find|..], find, replace)
  {
    SplitSome(text, find);
    var i := IndexFrom(text, find, 0);
    var rest := Split(text[i + |find|..], find);
    assert ([text[..i]] + rest)[1..] == rest;
  }

  /** What comes after a first occurrence does not move it. */
  lemma {:induction false} FirstStays(x: string, f: string, y: string, z: string)
    requires f != "" && IndexFrom(x + f + y, f, 0) == |x|
    ensures IndexFrom(x + f + z, f, 0) == |x|
  {
    var s, t := x + f + y, x + f + z;
    assert t[|x|..|x| + |f|] == f && OccursAt(t, f, |x|);
    forall j: nat | j < |x| ensures OccursAt(t, f, j) <==> OccursAt(s, f, j) {
      SameSlice(x + f, y, z, j, j + |f|);
    }
  }

  lemma SameSlice(x: string, y: string, z: string, i: nat, j: nat)
    requires i <= j <= |x|
    ensures (x + y)[i..j] == (x + z)[i..j]
  {
    assert (x + y)[i..j] == x[i..j] && (x + z)[i..j] == x[i..j];
  }

  lemma {:induction false} NotTogether(text: string, f: string, g: string, i: nat)
    requires OccursAt(text, f, i) && OccursAt(text, g, i)
    ensures Includes(f, g) || Includes(g, f)
  {
    if |f| <= |g| {
      assert g[0..|f|] == text[i..i + |g|][..|f|] == text[i..i + |f|];
      assert OccursAt(g, f, 0);
    } else {
      assert f[0..|g|] == text[i..i + |f|][..|g|] == text[i..i + |g|];
      assert OccursAt(f, g, 0);
    }
  }

  /** Where `f` comes before any `g`, both orders begin alike. */
  lemma {:induction false} CommuteStep(text: string, f: string, r: string, g: string, s: string)
    requires f != "" && g != "" && Separate(g, f) && Separate(g, r)
    requires var i, j := IndexFrom(text, f, 0), IndexFrom(text, g, 0); i != -1 && (j == -1 || i < j)
    ensures var i := IndexFrom(text, f, 0);
            var y := text[i + |f|..];
            && Apply(Apply(text, f, r), g, s) == text[..i] + r + Apply(Apply(y, f, r), g, s)
            && Apply(Apply(text, g, s), f, r) == text[..i] + r + Apply(Apply(y, g, s), f, r)
  {
    hide *;
    ApplyFirst(text, f, r);
    var i := IndexFrom(text, f, 0);
    var x, y := text[..i], text[i + |f|..];
    NoneInFront(text, g, i);
    ApplyNone(x, g, s);
    ApplySeam(x, r, Apply(y, f, r), g, s);
    ApplySeam(x, f, y, g, s);
    var z := Apply(y, g, s);
    FirstStays(x, f, y, z);
    ApplyFirst(x + f + z, f, r);
    assert (x + f + z)[..i] == x && (x + f + z)[i + |f|..] == z;
  }

  lemma {:induction false} NoneInFront(text: string, g: string, i: nat)
    requires g != "" && i <= |text| && (IndexFrom(text, g, 0) == -1 || i < IndexFrom(text, g, 0))
    ensures Count(text[..i], g) == 0
  {
    CountZero(text[..i], g);
    forall j: nat ensures !OccursAt(text[..i], g, j) {
      if j + |g| <= i { OccursInPrefix(text, i, g, j); }
    }
  }

  lemma {:induction false} Commute(text: string, f: string, r: string, g: string, s: string)
    requires f != "" && g != "" && Separate(f, g) && Separate(f, s) && Separate(r, g)
    ensures Apply(Apply(text, f, r), g, s) == Apply(Apply(text, g, s), f, r)
    decreases |text|
  {
    hide *;
    SeparateBothWays(f, g);
    SeparateBothWays(r, g);
    IndexCounts(text, f);
    IndexCounts(text, g);
    NotSame(text, f, g);
    if IndexFrom(text, f, 0) == -1 {
      CommuteNone(text, f, r, g, s);
    } else if IndexFrom(text, g, 0) == -1 {
      CommuteNone(text, g, s, f, r);
    } else if IndexFrom(text, f, 0) < IndexFrom(text, g, 0) {
      Commute(text[IndexFrom(text, f, 0) + |f|..], f, r, g, s);
      CommuteStep(text, f, r, g, s);
    } else {
      Commute(text[IndexFrom(text, g, 0) + |g|..], f, r, g, s);
      CommuteStep(text, g, s, f, r);
    }
  }

  lemma {:induction false} CommuteNone(text: string, f: string, r: string, g: string, s: string)
    requires f != "" && g != "" && Separate(f, g) && Separate(f, s) && Count(text, f) == 0
    ensures Apply(Apply(text, f, r), g, s) == Apply(Apply(text, g, s), f, r)
  {
    hide *;
    CountKept(text, g, s, f);
    ApplyNone(text, f, r);
    ApplyNone(Apply(text, g, s), f, r);
  }

  lemma {:induction false} NotSame(text: string, f: string, g: string)
    requires Separate(f, g)
    ensures IndexFrom(text, f, 0) == IndexFrom(text, g, 0) ==> IndexFrom(text, f, 0) == -1
  {
    var i := IndexFrom(text, f, 0);
    if i == IndexFrom(text, g, 0) != -1 { NotTogether(text, f, g, i); }
  }

  lemma {:induction false} IndexCounts(text: string, f: string)
    requires f != ""
    ensures IndexFrom(text, f, 0) == -1 <==> Count(text, f) == 0
    ensures IndexFrom(text, f, 0) != -1 ==> IndexFrom(text, f, 0) + |f| <= |text|
  {
    if IndexFrom(text, f, 0) != -1 { SplitSome(text, f); }
  }
}

/** `split` and `join` with a separator of any length, as ECMAScript defines them. */
module Substring {
  import opened Text

  predicate OccursAt(s: string, p: string, i: int) {
    0 <= i && i + |p| <= |s| && s[i..i + |p|] == p
  }

  /** `s.includes(p)` */
  predicate Includes(s: string, p: string) {
    exists i | 0 <= i <= |s| :: OccursAt(s, p, i)
  }

  /** The first occurrence at or after `i`, or -1. */
  function IndexFrom(s: string, p: string, i: nat): (r: int)
    requires i <= |s|
    ensures r == -1 ==> forall j :: i <= j ==> !OccursAt(s, p, j)
    ensures r != -1 ==> i <= r && OccursAt(s, p, r) && forall j :: i <= j < r ==> !OccursAt(s, p, j)
    decreases |s| - i
  {
    if OccursAt(s, p, i) then i
    else if i == |s| then -1
    else IndexFrom(s, p, i + 1)
  }

  /** `s.split(p)` for a non-empty separator: cut at the leftmost occurrence, again and again. */
  function Split(s: string, p: string): (parts: seq<string>)
    requires p != ""
    ensures parts != []
  {
    var i := IndexFrom(s, p, 0);
    if i == -1 then [s] else [s[..i]] + Split(s[i + |p|..], p)
  }

  /** `s.split(p).length - 1` */
  function Count(s: string, p: string): nat
    requires p != ""
  {
    |Split(s, p)| - 1
  }

  lemma {:induction false} CountZero(s: string, p: string)
    requires p != ""
    ensures Count(s, p) == 0 <==> !Includes(s, p)
    ensures Count(s, p) == 0 ==> Split(s, p) == [s]
  {}

  lemma {:induction false} JoinSplitBy(s: string, p: string)
    requires p != ""
    ensures Join(Split(s, p), p) == s
  {
    var i := IndexFrom(s, p, 0);
    if i != -1 {
      var rest := s[i + |p|..];
      JoinSplitBy(rest, p);
      assert Split(s, p)[1..] == Split(rest, p);
      assert s == s[..i] + p + rest;
    }
  }

  /** Whatever a piece of a split contains, the text contains. */
  lemma {:induction false} PieceIncludes(s: string, p: string, piece: string, q: string)
    requires p != "" && piece in Split(s, p) && Includes(piece, q)
    ensures Includes(s, q)
  {
    var i := IndexFrom(s, p, 0);
    if i != -1 && piece != s[..i] {
      var rest := s[i + |p|..];
      PieceIncludes(rest, p, piece, q);
      var j :| 0 <= j <= |rest| && OccursAt(rest, q, j);
      assert s[i + |p| + j..i + |p| + j + |q|] == rest[j..j + |q|];
      assert OccursAt(s, q, i + |p| + j);
    } else {
      var j :| 0 <= j <= |piece| && OccursAt(piece, q, j);
      assert s[j..j + |q|] == piece[j..j + |q|];
      assert OccursAt(s, q, j);
    }
  }

  lemma {:induction false} OccursInPrefix(s: string, i: nat, p: string, j: nat)
    requires j + |p| <= i <= |s|
    ensures OccursAt(s[..i], p, j) <==> OccursAt(s, p, j)
  {
    assert s[..i][j..j + |p|] == s[j..j + |p|];
  }

  /** No piece holds the separator. */
  lemma {:induction false} PieceFree(s: string, p: string, piece: string)
    requires p != "" && piece in Split(s, p)
    ensures !Includes(piece, p)
  {
    var i := IndexFrom(s, p, 0);
    if i == -1 {
    } else if piece == s[..i] {
      forall j | 0 <= j <= |piece| ensures !OccursAt(piece, p, j) {
        if j + |p| <= i { OccursInPrefix(s, i, p, j); }
      }
    } else {
      PieceFree(s[i + |p|..], p, piece);
    }
  }

  // ----- borders

  /** A proper, non-empty prefix of `p` that is also a suffix, given by the shift. */
  ghost predicate BorderAt(p: string, shift: nat) {
    0 < shift < |p| && p[shift..] == p[..|p| - shift]
  }

  ghost predicate Unbordered(p: string) {
    forall shift: nat :: !BorderAt(p, shift)
  }

  /** Before an unbordered separator, the text in front of it decides what is found first. */
  lemma {:induction false} FirstBeforeSeparator(a: string, b: string, p: string, j: nat)
    requires Unbordered(p) && j < |a| && OccursAt(a + p + b, p, j)
    ensures OccursAt(a, p, j)
  {
    var s := a + p + b;
    if j + |p| > |a| {
      var shift := |a| - j;
      assert p[shift..] == p[..|p| - shift] by {
        assert s[j..j + |p|][shift..] == s[|a|..j + |p|] == p[..|p| - shift];
      }
      assert BorderAt(p, shift);
    } else {
      assert s[j..j + |p|] == a[j..j + |p|];
    }
  }

  /** Splitting at an unbordered separator distributes over inserting it. */
  lemma {:induction false} SplitConcat(a: string, b: string, p: string)
    requires p != "" && Unbordered(p)
    ensures Split(a + p + b, p) == Split(a, p) + Split(b, p)
    decreases |a|
  {
    hide *;
    FirstOccurrence(a, b, p);
    SplitSome(a + p + b, p);
    var i := IndexFrom(a, p, 0);
    if i == -1 {
      SplitNone(a, p);
      assert (a + p + b)[..|a|] == a && (a + p + b)[|a| + |p|..] == b;
    } else {
      SplitSome(a, p);
      var rest := a[i + |p|..];
      assert (a + p + b)[..i] == a[..i] && (a + p + b)[i + |p|..] == rest + p + b;
      SplitConcat(rest, b, p);
      assert [a[..i]] + (Split(rest, p) + Split(b, p)) == ([a[..i]] + Split(rest, p)) + Split(b, p);
    }
  }

  lemma {:induction false} SplitNone(s: string, p: string)
    requires p != "" && IndexFrom(s, p, 0) == -1
    ensures Split(s, p) == [s]
  {}

  lemma {:induction false} SplitSome(s: string, p: string)
    requires p != "" && IndexFrom(s, p, 0) != -1
    ensures var i := IndexFrom(s, p, 0);
            0 <= i && i + |p| <= |s| && Split(s, p) == [s[..i]] + Split(s[i + |p|..], p)
  {}

  lemma {:induction false} FirstOccurrence(a: string, b: string, p: string)
    requires p != "" && Unbordered(p)
    ensures IndexFrom(a + p + b, p, 0) == if IndexFrom(a, p, 0) == -1 then |a| else IndexFrom(a, p, 0)
  {
    var s, i := a + p + b, IndexFrom(a, p, 0);
    assert OccursAt(s, p, |a|);
    forall j: nat | j < |a| && OccursAt(s, p, j) ensures OccursAt(a, p, j) {
      FirstBeforeSeparator(a, b, p, j);
    }
    if i != -1 {
      assert s[i..i + |p|] == a[i..i + |p|];
      assert OccursAt(s, p, i);
    }
  }

  function SplitAll(parts: seq<string>, p: string): seq<string>
    requires p != ""
  {
    if parts == [] then [] else Split(parts[0], p) + SplitAll(parts[1..], p)
  }

  /** Splitting a joined text splits every part on its own. */
  lemma {:induction false} SplitOfJoin(parts: seq<string>, p: string)
    requires p != "" && Unbordered(p) && parts != []
    ensures Split(Join(parts, p), p) == SplitAll(parts, p)
  {
    if |parts| > 1 {
      SplitOfJoin(parts[1..], p);
      SplitConcat(parts[0], Join(parts[1..], p), p);
    } else {
      assert SplitAll(parts[1..], p) == [];
    }
  }

  lemma {:induction false} SplitAllFree(parts: seq<string>, p: string)
    requires p != "" && forall x :: x in parts ==> !Includes(x, p)
    ensures SplitAll(parts, p) == parts
  {
    if parts != [] {
      assert SplitAll(parts, p) == Split(parts[0], p) + SplitAll(parts[1..], p);
      CountZero(parts[0], p);
      hide *;
      SplitAllFree(parts[1..], p);
    }
  }

  function SumCounts(parts: seq<string>, p: string): nat
    requires p != ""
  {
    if parts == [] then 0 else Count(parts[0], p) + SumCounts(parts[1..], p)
  }

  lemma {:induction false} SplitAllCounts(parts: seq<string>, p: string)
    requires p != ""
    ensures |SplitAll(parts, p)| == |parts| + SumCounts(parts, p)
    ensures SumCounts(parts, p) == 0 <==> forall x :: x in parts ==> !Includes(x, p)
  {
    if parts != [] {
      CountZero(parts[0], p);
      SplitAllCounts(parts[1..], p);
    }
  }
}

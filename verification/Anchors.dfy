/** The anchor allocation of scripts/verify-md-links.ts. */
module Anchors {

  /** The decimal digits of a number, as in a template literal. */
  function Decimal(n: nat): (s: string)
    ensures s != ""
  {
    if n < 10 then [Digit(n)] else Decimal(n / 10) + [Digit(n % 10)]
  }

  function Digit(n: nat): char
    requires n < 10
  {
    '0' + n as char
  }

  predicate IsDigit(c: char) {
    '0' <= c <= '9'
  }

  function DigitValue(c: char): nat
    requires IsDigit(c)
  {
    c as int - '0' as int
  }

  /** The number that a string of digits stands for. */
  function Number(s: string): nat
    requires forall i :: 0 <= i < |s| ==> IsDigit(s[i])
  {
    if s == "" then 0 else 10 * Number(s[..|s| - 1]) + DigitValue(s[|s| - 1])
  }

  /** The suffix reads back as the number, without a zero in front. */
  lemma {:induction false} DecimalReads(n: nat)
    ensures forall i :: 0 <= i < |Decimal(n)| ==> IsDigit(Decimal(n)[i])
    ensures Number(Decimal(n)) == n && (n > 0 ==> Decimal(n)[0] != '0') && (n == 0 ==> Decimal(n) == "0")
  {
    var s := Decimal(n);
    if n >= 10 {
      DecimalReads(n / 10);
      assert s[..|s| - 1] == Decimal(n / 10);
    } else {
      assert s[..|s| - 1] == "";
    }
  }

  lemma {:induction false} DecimalInjective(m: nat, n: nat)
    requires Decimal(m) == Decimal(n)
    ensures m == n
  {
    DecimalReads(m);
    DecimalReads(n);
  }

  /** The name tried after `k` collisions: the slug itself, then the slug with a suffix. */
  function Candidate(base: string, k: nat): string {
    if k == 0 then base else base + "-" + Decimal(k)
  }

  lemma CandidateInjective(base: string, j: nat, k: nat)
    requires Candidate(base, j) == Candidate(base, k)
    ensures j == k
  {
    var n := |base|;
    if j > 0 && k > 0 {
      assert Candidate(base, j)[n + 1..] == Decimal(j) && Candidate(base, k)[n + 1..] == Decimal(k);
      DecimalInjective(j, k);
    }
  }

  /** The first free name among the slug, slug-1, slug-2, and so on. */
  ghost predicate IsLeastFree(taken: set<string>, base: string, result: string) {
    exists k: nat ::
      result == Candidate(base, k) && result !in taken && forall j: nat :: j < k ==> Candidate(base, j) in taken
  }

  lemma LeastFreeUnique(taken: set<string>, base: string, a: string, b: string)
    requires IsLeastFree(taken, base, a) && IsLeastFree(taken, base, b)
    ensures a == b
  {
    var j: nat :| a == Candidate(base, j) && a !in taken && forall i: nat :: i < j ==> Candidate(base, i) in taken;
    var k: nat :| b == Candidate(base, k) && b !in taken && forall i: nat :: i < k ==> Candidate(base, i) in taken;
    assert j < k ==> Candidate(base, j) in taken;
    assert k < j ==> Candidate(base, k) in taken;
  }

  function Elements(xs: seq<string>): set<string> {
    set x | x in xs
  }

  /** Each heading takes the least free name, given the headings before it. */
  ghost predicate Allocates(bases: seq<string>, names: seq<string>) {
    && |names| == |bases|
    && forall i :: 0 <= i < |bases| ==> IsLeastFree(Elements(names[..i]), bases[i], names[i])
  }

  lemma {:induction false} AllocationUnique(bases: seq<string>, a: seq<string>, b: seq<string>, n: nat)
    requires Allocates(bases, a) && Allocates(bases, b) && n <= |bases|
    ensures a[..n] == b[..n]
  {
    assert |a| == |b| == |bases|;
    hide *;
    if n > 0 {
      AllocationUnique(bases, a, b, n - 1);
      NextAgrees(bases, a, b, n - 1);
      LongerPrefix(a, b, n);
    }
  }

  lemma LongerPrefix(a: seq<string>, b: seq<string>, n: nat)
    requires 0 < n <= |a| && n <= |b| && a[..n - 1] == b[..n - 1] && a[n - 1] == b[n - 1]
    ensures a[..n] == b[..n]
  {
    PrefixSnoc(a, n);
    PrefixSnoc(b, n);
  }

  lemma PrefixSnoc(a: seq<string>, n: nat)
    requires 0 < n <= |a|
    ensures a[..n] == a[..n - 1] + [a[n - 1]]
  {}

  lemma NextAgrees(bases: seq<string>, a: seq<string>, b: seq<string>, n: nat)
    requires Allocates(bases, a) && Allocates(bases, b) && n < |bases| && a[..n] == b[..n]
    ensures a[n] == b[n]
  {
    LeastFreeUnique(Elements(a[..n]), bases[n], a[n], b[n]);
  }

  /** No two headings share an anchor. */
  lemma AllocationDistinct(bases: seq<string>, names: seq<string>, i: nat, j: nat)
    requires Allocates(bases, names) && i < j < |names|
    ensures names[i] != names[j]
  {
    assert names[..j][i] == names[i];
    assert IsLeastFree(Elements(names[..j]), bases[j], names[j]);
  }

  /** What the memo promises: every suffix it skips is taken. */
  ghost predicate MemoSound(anchors: set<string>, occurrences: map<string, nat>) {
    forall base, j: nat :: base in occurrences && occurrences[base] > 0 && j <= occurrences[base]
      ==> Candidate(base, j) in anchors
  }

  /** The inner loop: from the memoised bump to the first free name. */
  method FindFree(anchors: set<string>, base: string, memo: nat) returns (result: string, bump: nat)
    requires memo > 0 ==> forall j: nat :: j <= memo ==> Candidate(base, j) in anchors
    ensures IsLeastFree(anchors, base, result)
    ensures bump > 0 ==> forall j: nat :: j <= bump ==> Candidate(base, j) in anchors + {result}
  {
    result, bump := base, memo;
    ghost var tried: set<string> := {};
    ghost var k: nat := 0;  // result is the candidate number k
    while result in anchors
      invariant result == Candidate(base, k) && (k == 0 ==> bump == memo) && (k > 0 ==> bump == k > memo)
      invariant forall j: nat :: j < k ==> Candidate(base, j) in anchors
      invariant tried <= anchors && forall t :: t in tried ==> exists j: nat :: j < k && t == Candidate(base, j)
      decreases anchors - tried
    {
      if result in tried {
        var j: nat :| j < k && result == Candidate(base, j);
        CandidateInjective(base, j, k);
      }
      tried := tried + {result};
      bump := bump + 1;
      forall j: nat | j < bump ensures Candidate(base, j) in anchors {}
      k := bump;
      result := base + "-" + Decimal(bump);
    }
  }

  /** The fragments of a document: its allocated anchors and its explicit ids. */
  ghost predicate AreFragments(bases: seq<string>, explicitIds: seq<string>, anchors: set<string>) {
    exists names :: Allocates(bases, names) && anchors == Elements(names) + Elements(explicitIds)
  }

  /** Only one set of fragments fits. */
  lemma FragmentsUnique(bases: seq<string>, explicitIds: seq<string>, a: set<string>, b: set<string>)
    requires AreFragments(bases, explicitIds, a) && AreFragments(bases, explicitIds, b)
    ensures a == b
  {
    var namesA :| Allocates(bases, namesA) && a == Elements(namesA) + Elements(explicitIds);
    var namesB :| Allocates(bases, namesB) && b == Elements(namesB) + Elements(explicitIds);
    AllocationUnique(bases, namesA, namesB, |bases|);
    assert namesA[..|bases|] == namesA && namesB[..|bases|] == namesB;
  }

  function Slugs(headings: seq<string>, githubSlug: string -> string): (r: seq<string>)
    ensures |r| == |headings| && forall i :: 0 <= i < |r| ==> r[i] == githubSlug(headings[i])
  {
    seq(|headings|, i requires 0 <= i < |headings| => githubSlug(headings[i]))
  }

  /**
   * `documentAnchors`: the memoised loop gives every heading its least free name, and
   * the document exposes exactly those names and its explicit ids.
   */
  method DocumentAnchors(headings: seq<string>, githubSlug: string -> string, explicitIds: seq<string>)
    returns (anchors: set<string>)
    ensures AreFragments(Slugs(headings, githubSlug), explicitIds, anchors)
  {
    anchors := {};
    ghost var names := [];
    var occurrences: map<string, nat> := map[];
    for i := 0 to |headings|
      invariant |names| == i && anchors == Elements(names) && MemoSound(anchors, occurrences)
      invariant forall j :: 0 <= j < i ==> IsLeastFree(Elements(names[..j]), githubSlug(headings[j]), names[j])
    {
      var base := githubSlug(headings[i]);
      var memo := if base in occurrences then occurrences[base] else 0;
      var result, bump := FindFree(anchors, base, memo);
      occurrences := occurrences[base := bump];
      anchors := anchors + {result};
      assert forall j :: 0 <= j < i ==> (names + [result])[..j] == names[..j];
      assert (names + [result])[..i] == names;
      names := names + [result];
    }
    for i := 0 to |explicitIds|
      invariant anchors == Elements(names) + Elements(explicitIds[..i])
    {
      anchors := anchors + {explicitIds[i]};
    }
    assert explicitIds[..|explicitIds|] == explicitIds;
    assert Allocates(Slugs(headings, githubSlug), names);
  }
}

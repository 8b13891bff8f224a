/**
 * A text with sites: gaps that stay, and between them sites where one of several forms
 * stands. Replacing the form of one owner changes its sites and nothing else, as long as
 * that form occurs nowhere but there.
 */
module Sites {
  import opened Substring
  import opened Seams

  /** Site `i` stands between gap `i` and gap `i + 1` and belongs to `owners[i]`. */
  datatype Sheet = Sheet(gaps: seq<string>, owners: seq<nat>)

  predicate Proper(s: Sheet, n: nat) {
    |s.gaps| == |s.owners| + 1 && forall i | 0 <= i < |s.owners| :: s.owners[i] < n
  }

  /** The text from gap `i` on, when `forms[k]` stands at the sites of owner `k`. */
  function Render(s: Sheet, forms: seq<string>, i: nat): string
    requires Proper(s, |forms|) && i < |s.gaps|
    decreases |s.gaps| - i
  {
    if i == |s.owners| then s.gaps[i] else s.gaps[i] + forms[s.owners[i]] + Render(s, forms, i + 1)
  }

  function Whole(s: Sheet, forms: seq<string>): string
    requires Proper(s, |forms|)
  {
    Render(s, forms, 0)
  }

  /** The text from gap `i` up to site `n`. */
  function Pre(s: Sheet, forms: seq<string>, i: nat, n: nat): string
    requires Proper(s, |forms|) && i <= n < |s.gaps|
    decreases n - i
  {
    if i == n then s.gaps[i] else s.gaps[i] + forms[s.owners[i]] + Pre(s, forms, i + 1, n)
  }

  function Start(s: Sheet, forms: seq<string>, n: nat): nat
    requires Proper(s, |forms|) && n < |s.gaps|
  {
    |Pre(s, forms, 0, n)|
  }

  /** The number of sites of owner `k` from site `i` on. */
  function SiteCount(s: Sheet, k: nat, i: nat): nat
    requires i <= |s.owners|
    decreases |s.owners| - i
  {
    if i == |s.owners| then 0 else (if s.owners[i] == k then 1 else 0) + SiteCount(s, k, i + 1)
  }

  /** The occurrence of `f` at `j` lies within a site of owner `k`. */
  ghost predicate WithinSite(s: Sheet, forms: seq<string>, k: nat, f: string, j: int)
    requires Proper(s, |forms|)
  {
    exists n: nat :: n < |s.owners| && s.owners[n] == k && InSite(s, forms, n, f, j)
  }

  predicate InSite(s: Sheet, forms: seq<string>, n: nat, f: string, j: int)
    requires Proper(s, |forms|) && n < |s.owners|
  {
    Start(s, forms, n) <= j && j + |f| <= Start(s, forms, n) + |forms[s.owners[n]]|
  }

  /** Every occurrence of `f` in the whole text lies within a site of owner `k`. */
  ghost predicate AtHome(s: Sheet, forms: seq<string>, k: nat, f: string)
    requires Proper(s, |forms|)
  {
    forall j: nat :: OccursAt(Whole(s, forms), f, j) ==> WithinSite(s, forms, k, f, j)
  }

  // ----- places in the text

  lemma {:induction false} RenderFrom(s: Sheet, forms: seq<string>, i: nat, n: nat)
    requires Proper(s, |forms|) && i <= n < |s.owners|
    ensures Render(s, forms, i) == Pre(s, forms, i, n) + forms[s.owners[n]] + Render(s, forms, n + 1)
    decreases n - i
  {
    if i < n {
      RenderFrom(s, forms, i + 1, n);
      Regroup(s.gaps[i] + forms[s.owners[i]], Pre(s, forms, i + 1, n), forms[s.owners[n]], Render(s, forms, n + 1));
    }
  }

  lemma Regroup(a: string, b: string, c: string, d: string)
    ensures a + (b + c + d) == (a + b) + c + d
  {}

  lemma {:induction false} PreExtends(s: Sheet, forms: seq<string>, i: nat, n: nat)
    requires Proper(s, |forms|) && i <= n < |s.owners|
    ensures Pre(s, forms, i, n + 1) == Pre(s, forms, i, n) + (forms[s.owners[n]] + s.gaps[n + 1])
    decreases n - i
  {
    if i < n {
      PreExtends(s, forms, i + 1, n);
      var head, pre := s.gaps[i] + forms[s.owners[i]], Pre(s, forms, i + 1, n);
      assert head + (pre + (forms[s.owners[n]] + s.gaps[n + 1])) == (head + pre) + (forms[s.owners[n]] + s.gaps[n + 1]);
    } else {
      assert Pre(s, forms, n + 1, n + 1) == s.gaps[n + 1];
      assert s.gaps[n] + forms[s.owners[n]] + s.gaps[n + 1] == s.gaps[n] + (forms[s.owners[n]] + s.gaps[n + 1]);
    }
  }

  /** Where gap `i` begins. */
  function GapStart(s: Sheet, forms: seq<string>, i: nat): nat
    requires Proper(s, |forms|) && i < |s.gaps|
  {
    if i == 0 then 0 else Start(s, forms, i - 1) + |forms[s.owners[i - 1]]|
  }

  lemma {:induction false} StartAfterGap(s: Sheet, forms: seq<string>, i: nat)
    requires Proper(s, |forms|) && i < |s.gaps|
    ensures Start(s, forms, i) == GapStart(s, forms, i) + |s.gaps[i]|
  {
    if i > 0 { PreExtends(s, forms, 0, i - 1); }
  }

  /** Seen from gap `i`, site `n` starts behind the text between them. */
  lemma {:induction false} StartFrom(s: Sheet, forms: seq<string>, i: nat, n: nat)
    requires Proper(s, |forms|) && i <= n < |s.gaps|
    ensures Start(s, forms, n) == GapStart(s, forms, i) + |Pre(s, forms, i, n)|
    decreases n - i
  {
    StartAfterGap(s, forms, n);
    if i < n {
      StartFrom(s, forms, i, n - 1);
      PreExtends(s, forms, i, n - 1);
    }
  }

  lemma {:induction false} StartsAscend(s: Sheet, forms: seq<string>, m: nat, n: nat)
    requires Proper(s, |forms|) && m < n < |s.gaps|
    ensures Start(s, forms, m) + |forms[s.owners[m]]| <= GapStart(s, forms, n) <= Start(s, forms, n)
    decreases n
  {
    StartAfterGap(s, forms, n);
    if m < n - 1 { StartsAscend(s, forms, m, n - 1); }
  }

  /** The text from gap `i` on is the end of the whole text. */
  lemma {:induction false} RenderIsEnd(s: Sheet, forms: seq<string>, i: nat)
    requires Proper(s, |forms|) && i < |s.gaps|
    ensures GapStart(s, forms, i) <= |Whole(s, forms)|
    ensures Whole(s, forms)[GapStart(s, forms, i)..] == Render(s, forms, i)
  {
    if i > 0 {
      RenderFrom(s, forms, 0, i - 1);
    }
  }

  lemma {:induction false} OccursFrom(s: Sheet, forms: seq<string>, i: nat, f: string, j: nat)
    requires Proper(s, |forms|) && i < |s.gaps|
    ensures OccursAt(Render(s, forms, i), f, j) <==> OccursAt(Whole(s, forms), f, GapStart(s, forms, i) + j)
  {
    RenderIsEnd(s, forms, i);
    var text, at := Whole(s, forms), GapStart(s, forms, i);
    hide Render, Whole, GapStart;
    if at + j + |f| <= |text| {
      assert text[at..][j..j + |f|] == text[at + j..at + j + |f|];
    }
  }

  // ----- replacing the form of one owner

  /** The next site of owner `k`, or none. */
  function Next(s: Sheet, k: nat, i: nat): (n: int)
    requires i <= |s.owners|
    ensures n == -1 || (i <= n < |s.owners| && s.owners[n] == k)
    ensures forall m :: i <= m < (if n == -1 then |s.owners| else n) ==> s.owners[m] != k
    decreases |s.owners| - i
  {
    if i == |s.owners| then -1 else if s.owners[i] == k then i else Next(s, k, i + 1)
  }

  /** A form that is at home is found first at the owner's next site. */
  lemma {:induction false} FirstFound(s: Sheet, forms: seq<string>, k: nat, i: nat)
    requires Proper(s, |forms|) && i < |s.gaps| && k < |forms| && forms[k] != "" && AtHome(s, forms, k, forms[k])
    ensures IndexFrom(Render(s, forms, i), forms[k], 0)
         == if Next(s, k, i) == -1 then -1 else |Pre(s, forms, i, Next(s, k, i))|
  {
    var text, f, n := Render(s, forms, i), forms[k], Next(s, k, i);
    hide Render, Pre;
    forall j: nat | OccursAt(text, f, j) ensures n != -1 && |Pre(s, forms, i, n)| <= j {
      OccurrenceHome(s, forms, k, i, j);
    }
    if n != -1 {
      SiteOccurs(s, forms, i, n);
      FirstIs(text, f, |Pre(s, forms, i, n)|);
    }
  }

  lemma {:induction false} SiteOccurs(s: Sheet, forms: seq<string>, i: nat, n: nat)
    requires Proper(s, |forms|) && i <= n < |s.owners|
    ensures OccursAt(Render(s, forms, i), forms[s.owners[n]], |Pre(s, forms, i, n)|)
  {
    RenderFrom(s, forms, i, n);
    var pre, form := Pre(s, forms, i, n), forms[s.owners[n]];
    assert Render(s, forms, i)[|pre|..|pre| + |form|] == form;
  }

  lemma {:induction false} OccurrenceHome(s: Sheet, forms: seq<string>, k: nat, i: nat, j: nat)
    requires Proper(s, |forms|) && i < |s.gaps| && k < |forms| && forms[k] != "" && AtHome(s, forms, k, forms[k])
    requires OccursAt(Render(s, forms, i), forms[k], j)
    ensures Next(s, k, i) != -1 && |Pre(s, forms, i, Next(s, k, i))| <= j
  {
    OccursFrom(s, forms, i, forms[k], j);
    var at := GapStart(s, forms, i) + j;
    assert WithinSite(s, forms, k, forms[k], at);
    var m: nat :| m < |s.owners| && s.owners[m] == k && InSite(s, forms, m, forms[k], at);
    hide Render, Pre, Start, GapStart;
    if m < i {
      StartsAscend(s, forms, m, i);
    } else {
      var n := Next(s, k, i);
      StartFrom(s, forms, i, n);
      if n < m { StartsAscend(s, forms, n, m); }
    }
  }

  lemma {:induction false} ApplyFrom(s: Sheet, forms: seq<string>, k: nat, to: string, i: nat)
    requires Proper(s, |forms|) && i < |s.gaps| && k < |forms| && forms[k] != "" && AtHome(s, forms, k, forms[k])
    ensures Apply(Render(s, forms, i), forms[k], to) == Render(s, forms[k := to], i)
    ensures Count(Render(s, forms, i), forms[k]) == SiteCount(s, k, i)
    decreases |s.gaps| - i
  {
    hide Render, Pre, AtHome, Next, Apply, Count, IndexFrom, SiteCount;
    FirstFound(s, forms, k, i);
    NoneBetween(s, forms, k, to, i);
    var f, n := forms[k], Next(s, k, i);
    if n == -1 {
      NotFound(Render(s, forms, i), f, to);
    } else {
      RenderFrom(s, forms, i, n);
      RenderFrom(s, forms[k := to], i, n);
      FoundFirst(Pre(s, forms, i, n), f, Render(s, forms, n + 1), to);
      ApplyFrom(s, forms, k, to, n + 1);
    }
  }

  lemma NotFound(text: string, f: string, to: string)
    requires f != "" && IndexFrom(text, f, 0) == -1
    ensures Apply(text, f, to) == text && Count(text, f) == 0
  {
    SplitNone(text, f);
    ApplyNone(text, f, to);
  }

  lemma {:induction false} FoundFirst(pre: string, f: string, rest: string, to: string)
    requires f != "" && IndexFrom(pre + f + rest, f, 0) == |pre|
    ensures Apply(pre + f + rest, f, to) == pre + to + Apply(rest, f, to)
    ensures Count(pre + f + rest, f) == 1 + Count(rest, f)
  {
    var text := pre + f + rest;
    assert text[..|pre|] == pre && text[|pre| + |f|..] == rest;
    ApplyFirst(text, f, to);
    SplitSome(text, f);
  }

  /** Up to the next site of the owner nothing changes. */
  lemma {:induction false} NoneBetween(s: Sheet, forms: seq<string>, k: nat, to: string, i: nat)
    requires Proper(s, |forms|) && i < |s.gaps| && k < |forms|
    ensures var n := Next(s, k, i);
            if n == -1 then Render(s, forms[k := to], i) == Render(s, forms, i) && SiteCount(s, k, i) == 0
            else Pre(s, forms[k := to], i, n) == Pre(s, forms, i, n) && SiteCount(s, k, i) == 1 + SiteCount(s, k, n + 1)
    decreases |s.gaps| - i
  {
    if i < |s.owners| && s.owners[i] != k { NoneBetween(s, forms, k, to, i + 1); }
  }

  /** Replacing a form that is at home changes the sites of its owner, one for one, and nothing else. */
  lemma {:induction false} ApplySites(s: Sheet, forms: seq<string>, k: nat, to: string)
    requires Proper(s, |forms|) && k < |forms| && forms[k] != "" && AtHome(s, forms, k, forms[k])
    ensures Apply(Whole(s, forms), forms[k], to) == Whole(s, forms[k := to])
    ensures Count(Whole(s, forms), forms[k]) == SiteCount(s, k, 0)
  {
    hide AtHome, Render;
    ApplyFrom(s, forms, k, to, 0);
  }

  /** A form that is at home where it does not fit occurs nowhere. */
  lemma {:induction false} NowhereAtHome(s: Sheet, forms: seq<string>, k: nat, f: string)
    requires Proper(s, |forms|) && k < |forms| && f != "" && AtHome(s, forms, k, f) && !Includes(forms[k], f)
    ensures Count(Whole(s, forms), f) == 0
  {
    var text := Whole(s, forms);
    CountZero(text, f);
    forall j: nat ensures !OccursAt(text, f, j) {
      if OccursAt(text, f, j) {
        assert WithinSite(s, forms, k, f, j);
        var n: nat :| n < |s.owners| && s.owners[n] == k && InSite(s, forms, n, f, j);
        SiteIncludes(s, forms, n, f, j);
      }
    }
  }

  lemma {:induction false} SiteIncludes(s: Sheet, forms: seq<string>, n: nat, f: string, j: nat)
    requires Proper(s, |forms|) && n < |s.owners| && OccursAt(Whole(s, forms), f, j) && InSite(s, forms, n, f, j)
    ensures Includes(forms[s.owners[n]], f)
  {
    RenderFrom(s, forms, 0, n);
    var pre, form, rest := Pre(s, forms, 0, n), forms[s.owners[n]], Render(s, forms, n + 1);
    hide Render, Pre;
    SliceOfThree(pre, form, rest, j, j + |f|);
    assert OccursAt(form, f, j - |pre|);
  }
}

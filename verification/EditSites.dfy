/**
 * A whole run of exact edits over the texts it really has: several edits of one file,
 * however their forms overlap, as long as in the texts the run passes through each form
 * occurs nowhere but at the sites of its own edit.
 */
module EditSites {
  import opened Substring
  import opened Seams
  import opened ExactEdit
  import opened EditRuns
  import opened Sites

  /** For each file its gaps and the edits that own the sites between them. */
  type Sheets = map<string, Sheet>

  /** Which edits have been applied. */
  type Done = seq<bool>

  function Form(e: Edit, done: bool): string {
    if done then e.replace else e.find
  }

  function CurrentForms(edits: seq<Edit>, done: Done): (r: seq<string>)
    requires |done| == |edits|
    ensures |r| == |edits| && forall k :: 0 <= k < |r| ==> r[k] == Form(edits[k], done[k])
  {
    seq(|edits|, k requires 0 <= k < |edits| => Form(edits[k], done[k]))
  }

  /** Each edit has its sites in its own file, as many as it expects, and two different forms. */
  ghost predicate Placed(edits: seq<Edit>, sheets: Sheets) {
    && (forall f :: f in sheets ==> Proper(sheets[f], |edits|))
    && (forall f, i :: f in sheets && 0 <= i < |sheets[f].owners| ==> edits[sheets[f].owners[i]].file == f)
    && (forall k :: 0 <= k < |edits| ==> WellSited(edits[k], sheets, k))
  }

  predicate WellSited(e: Edit, sheets: Sheets, k: nat) {
    && e.file in sheets && |sheets[e.file].gaps| == |sheets[e.file].owners| + 1
    && SiteCount(sheets[e.file], k, 0) == e.expected > 0
    && e.find != "" && e.replace != "" && e.find != e.replace
  }

  /** The files when some edits have been applied and the others not. */
  function FilesAt(edits: seq<Edit>, sheets: Sheets, done: Done): Files
    requires |done| == |edits| && forall f :: f in sheets ==> Proper(sheets[f], |edits|)
  {
    map f | f in sheets :: Whole(sheets[f], CurrentForms(edits, done))
  }

  /** Both forms of every edit occur only at its own sites. */
  ghost predicate Settled(edits: seq<Edit>, sheets: Sheets, done: Done)
    requires |done| == |edits| && Placed(edits, sheets)
  {
    forall k :: 0 <= k < |edits| ==> SettledEdit(edits, sheets, done, k)
  }

  ghost predicate SettledEdit(edits: seq<Edit>, sheets: Sheets, done: Done, k: nat)
    requires |done| == |edits| && Placed(edits, sheets) && k < |edits|
  {
    var forms := CurrentForms(edits, done);
    var sheet := sheets[edits[k].file];
    AtHome(sheet, forms, k, edits[k].find) && AtHome(sheet, forms, k, edits[k].replace)
  }

  /** The first `n` edits are as `b` says, the others are not. */
  function Stage(edits: seq<Edit>, n: nat, b: bool): (r: Done)
    ensures |r| == |edits| && forall k :: 0 <= k < |r| ==> r[k] == if k < n then b else !b
  {
    seq(|edits|, k => if k < n then b else !b)
  }

  // ----- one edit at one stage

  /** At a settled stage every edit is in the state that its sites show, in both directions. */
  lemma {:induction false} StateAt(edits: seq<Edit>, sheets: Sheets, done: Done, k: nat)
    requires |done| == |edits| && Placed(edits, sheets) && Settled(edits, sheets, done) && k < |edits|
    ensures var files, e := FilesAt(edits, sheets, done), edits[k];
            && e.file in files && e.find != "" && e.replace != ""
            && StateOf(files, e) == (if done[k] then Applied else Pending)
            && StateOf(files, Oriented(e, true)) == (if done[k] then Pending else Applied)
  {
    var e, forms := edits[k], CurrentForms(edits, done);
    var sheet := sheets[e.file];
    var current, other := Form(e, done[k]), Form(e, !done[k]);
    assert SettledEdit(edits, sheets, done, k) && WellSited(edits[k], sheets, k) && forms[k] == current;
    hide AtHome, Settled, ExactEditState, SiteCount;
    ApplySites(sheet, forms, k, other);
    if !Includes(current, other) { NowhereAtHome(sheet, forms, k, other); }
    StatesByCounts(Whole(sheet, forms), current, other, e.expected);
  }

  /** Applying one edit, forwards or in reverse, changes its own sites and no other text. */
  lemma {:induction false} ApplyAt(edits: seq<Edit>, sheets: Sheets, done: Done, k: nat)
    requires |done| == |edits| && Placed(edits, sheets) && Settled(edits, sheets, done) && k < |edits|
    ensures var files, e := FilesAt(edits, sheets, done), Oriented(edits[k], done[k]);
            && e.file in files && e.find != ""
            && ApplyOne(files, e) == FilesAt(edits, sheets, done[k := !done[k]])
  {
    var e := edits[k];
    assert WellSited(edits[k], sheets, k);
    var files, after := FilesAt(edits, sheets, done), FilesAt(edits, sheets, done[k := !done[k]]);
    hide Settled, SiteCount, Apply, CurrentForms, Whole, Placed, ApplyOne;
    AppliedOne(files, Oriented(e, done[k]));
    forall f | f in sheets ensures ApplyOne(files, Oriented(e, done[k]))[f] == after[f] {
      FileAfter(edits, sheets, done, k, f);
    }
  }

  lemma AppliedOne(files: Files, e: Edit)
    requires e.file in files && e.find != ""
    ensures ApplyOne(files, e).Keys == files.Keys
    ensures forall f :: f in files ==>
      ApplyOne(files, e)[f] == if f == e.file then Apply(files[f], e.find, e.replace) else files[f]
  {}

  lemma {:induction false} FileAfter(edits: seq<Edit>, sheets: Sheets, done: Done, k: nat, f: string)
    requires |done| == |edits| && Placed(edits, sheets) && Settled(edits, sheets, done) && k < |edits| && f in sheets
    ensures var forms, to := CurrentForms(edits, done), Form(edits[k], !done[k]);
            && Form(edits[k], done[k]) != ""
            && Whole(sheets[f], CurrentForms(edits, done[k := !done[k]]))
               == if f == edits[k].file then Apply(Whole(sheets[f], forms), Form(edits[k], done[k]), to)
                  else Whole(sheets[f], forms)
  {
    var forms, to := CurrentForms(edits, done), Form(edits[k], !done[k]);
    assert SettledEdit(edits, sheets, done, k) && WellSited(edits[k], sheets, k);
    FormsAfter(edits, done, k);
    hide CurrentForms, AtHome, Settled, SiteCount, Apply;
    if f == edits[k].file {
      ApplySites(sheets[f], forms, k, to);
    } else {
      NotOwner(edits, sheets, f, k);
      OthersStay(sheets[f], forms, k, to, 0);
    }
  }

  lemma FormsAfter(edits: seq<Edit>, done: Done, k: nat)
    requires |done| == |edits| && k < |edits|
    ensures CurrentForms(edits, done)[k] == Form(edits[k], done[k])
    ensures CurrentForms(edits, done[k := !done[k]]) == CurrentForms(edits, done)[k := Form(edits[k], !done[k])]
  {}

  lemma NotOwner(edits: seq<Edit>, sheets: Sheets, f: string, k: nat)
    requires Placed(edits, sheets) && f in sheets && k < |edits| && edits[k].file != f
    ensures forall i :: 0 <= i < |sheets[f].owners| ==> sheets[f].owners[i] != k
  {}

  lemma {:induction false} OthersStay(s: Sheet, forms: seq<string>, k: nat, to: string, i: nat)
    requires Proper(s, |forms|) && k < |forms| && i < |s.gaps|
    requires forall m :: 0 <= m < |s.owners| ==> s.owners[m] != k
    ensures Render(s, forms[k := to], i) == Render(s, forms, i)
    decreases |s.gaps| - i
  {
    if i < |s.owners| { OthersStay(s, forms, k, to, i + 1); }
  }

  // ----- the run, edit by edit

  /** The stages of the run, and of the reversed run in the same order, are settled. */
  ghost predicate RunSettled(edits: seq<Edit>, sheets: Sheets)
    requires Placed(edits, sheets)
  {
    forall n: nat, b: bool :: n <= |edits| ==> Settled(edits, sheets, Stage(edits, n, b))
  }

  lemma {:induction false} RunReaches(edits: seq<Edit>, sheets: Sheets, b: bool, n: nat)
    requires Placed(edits, sheets) && RunSettled(edits, sheets) && n <= |edits|
    ensures var oriented := OrientedAll(edits, !b);
            && WellFormed(oriented[..n]) && (forall e :: e in oriented[..n] ==> e.file in sheets)
            && FilesAt(edits, sheets, Stage(edits, 0, b)).Keys == sheets.Keys
            && ApplyAll(FilesAt(edits, sheets, Stage(edits, 0, b)), oriented[..n])
              == FilesAt(edits, sheets, Stage(edits, n, b))
  {
    hide *;
    PlacedForms(edits, sheets, !b);
    FilesKeys(edits, sheets, Stage(edits, 0, b));
    if n > 0 {
      RunReaches(edits, sheets, b, n - 1);
      StageNext(edits, sheets, b, n - 1);
      var oriented := OrientedAll(edits, !b);
      assert oriented[..n] == oriented[..n - 1] + [oriented[n - 1]];
      ApplySnoc(FilesAt(edits, sheets, Stage(edits, 0, b)), oriented[..n - 1], oriented[n - 1]);
    } else {
      assert OrientedAll(edits, !b)[..0] == [];
      NothingApplied(FilesAt(edits, sheets, Stage(edits, 0, b)));
    }
  }

  lemma FilesKeys(edits: seq<Edit>, sheets: Sheets, done: Done)
    requires |done| == |edits| && Placed(edits, sheets)
    ensures (forall f :: f in sheets ==> Proper(sheets[f], |edits|)) && FilesAt(edits, sheets, done).Keys == sheets.Keys
  {}

  lemma NothingApplied(files: Files)
    ensures WellFormed([]) && ApplyAll(files, []) == files
  {}

  lemma {:induction false} StageNext(edits: seq<Edit>, sheets: Sheets, b: bool, n: nat)
    requires Placed(edits, sheets) && RunSettled(edits, sheets) && n < |edits|
    ensures var files, e := FilesAt(edits, sheets, Stage(edits, n, b)), OrientedAll(edits, !b)[n];
            e.file in files && e.find != "" && ApplyOne(files, e) == FilesAt(edits, sheets, Stage(edits, n + 1, b))
  {
    var stage := Stage(edits, n, b);
    assert Settled(edits, sheets, stage);
    hide Placed, Settled, RunSettled, FilesAt, ApplyOne;
    ApplyAt(edits, sheets, stage, n);
    assert stage[n := !stage[n]] == Stage(edits, n + 1, b);
  }

  lemma PlacedForms(edits: seq<Edit>, sheets: Sheets, reverse: bool)
    requires Placed(edits, sheets)
    ensures forall i :: 0 <= i < |edits| ==> OrientedAll(edits, reverse)[i].file in sheets
    ensures WellFormed(OrientedAll(edits, reverse))
    ensures forall n: nat :: n <= |edits| ==> WellFormed(OrientedAll(edits, reverse)[..n])
  {
    assert forall i :: 0 <= i < |edits| ==> WellSited(edits[i], sheets, i);
  }

  /**
   * If at every stage of the run, and of the reversed run in the same order, each form
   * occurs only at the sites of its own edit, then every edit is pending, a run lands all
   * of them, and a reversed run accepts all of them and restores every file.
   */
  lemma {:induction false} RunRoundTrip(edits: seq<Edit>, sheets: Sheets)
    requires Placed(edits, sheets) && RunSettled(edits, sheets)
    ensures var files := FilesAt(edits, sheets, Stage(edits, 0, true));
            && WellFormed(edits) && (forall e :: e in edits ==> e.file in files && StateOf(files, e) == Pending)
            && var after, back := ApplyAll(files, Planned(files, edits)), OrientedAll(edits, true);
            && (forall e :: e in edits ==> e.file in after && StateOf(after, e) == Applied)
            && WellFormed(back) && (forall e :: e in back ==> e.file in after && StateOf(after, e) == Pending)
            && ApplyAll(after, Planned(after, back)) == files
  {
    var n := |edits|;
    var none, all := Stage(edits, 0, true), Stage(edits, n, true);
    assert Settled(edits, sheets, none) && Settled(edits, sheets, all);
    assert all == Stage(edits, 0, false) && none == Stage(edits, n, false);
    assert OrientedAll(edits, false) == edits;
    assert edits[..n] == edits && OrientedAll(edits, true)[..n] == OrientedAll(edits, true);
    hide *;
    RunReaches(edits, sheets, true, n);
    RunReaches(edits, sheets, false, n);
    StatesAt(edits, sheets, none, false);
    StatesAt(edits, sheets, all, true);
    PlannedAll(FilesAt(edits, sheets, none), edits);
    PlannedAll(FilesAt(edits, sheets, all), OrientedAll(edits, true));
  }

  lemma {:induction false} StatesAt(edits: seq<Edit>, sheets: Sheets, done: Done, b: bool)
    requires |done| == |edits| && Placed(edits, sheets) && Settled(edits, sheets, done)
    requires forall k :: 0 <= k < |edits| ==> done[k] == b
    ensures var files, back := FilesAt(edits, sheets, done), OrientedAll(edits, true);
            && WellFormed(edits) && WellFormed(back)
            && (forall e :: e in edits ==> e.file in files && StateOf(files, e) == (if b then Applied else Pending))
            && (forall e :: e in back ==> e.file in files && StateOf(files, e) == (if b then Pending else Applied))
  {
    var files := FilesAt(edits, sheets, done);
    PlacedForms(edits, sheets, true);
    PlacedForms(edits, sheets, false);
    assert OrientedAll(edits, false) == edits;
    hide Placed, Settled, FilesAt, StateOf;
    forall k | 0 <= k < |edits|
      ensures edits[k].file in files && edits[k].find != "" && edits[k].replace != ""
      ensures StateOf(files, edits[k]) == if b then Applied else Pending
      ensures StateOf(files, Oriented(edits[k], true)) == if b then Pending else Applied
    {
      StateAt(edits, sheets, done, k);
    }
  }

  // ----- looking at the gaps is enough

  /** Every occurrence of `f` in five texts put together lies within one of those that may hold it. */
  predicate WindowClear(x: string, g: string, y: string, h: string, z: string, f: string, inX: bool, inY: bool,
                        inZ: bool) {
    forall j | 0 <= j <= |x + g + y + h + z| :: OccursAt(x + g + y + h + z, f, j) ==>
      || (inX && j + |f| <= |x|)
      || (inY && |x + g| <= j && j + |f| <= |x + g + y|)
      || (inZ && |x + g + y + h| <= j)
  }

  /** `f` has `t` strictly inside, with something on both sides. */
  predicate Surrounds(f: string, t: string) {
    exists a | 0 < a < |f| :: OccursAt(f, t, a) && a + |t| < |f|
  }

  predicate OwnerIs(s: Sheet, i: int, k: nat) {
    0 <= i < |s.owners| && s.owners[i] == k
  }

  /**
   * With these forms at site `i` and at its two neighbours, `f` occurs in that part of the
   * text at sites of edit `k` only, and it does not reach over two sites and beyond.
   */
  predicate SiteClear(s: Sheet, forms: seq<string>, k: nat, f: string, i: nat)
    requires Proper(s, |forms|) && i < |s.owners|
  {
    && WindowClear(Left(s, forms, i), s.gaps[i], forms[s.owners[i]], s.gaps[i + 1], Right(s, forms, i), f,
                   OwnerIs(s, i - 1, k), OwnerIs(s, i, k), OwnerIs(s, i + 1, k))
    && (i + 1 < |s.owners| ==> !Surrounds(f, forms[s.owners[i]] + s.gaps[i + 1] + forms[s.owners[i + 1]]))
  }

  /** One of the two forms of each edit. */
  ghost predicate Choice(edits: seq<Edit>, forms: seq<string>) {
    && |forms| == |edits|
    && forall k :: 0 <= k < |edits| ==> forms[k] == edits[k].find || forms[k] == edits[k].replace
  }

  /** Around every site, whichever forms stand there, each form occurs at sites of its own edit only. */
  ghost predicate GapsClear(edits: seq<Edit>, sheets: Sheets)
    requires Placed(edits, sheets)
  {
    forall forms, k, i :: Choice(edits, forms) && 0 <= k < |edits| && 0 <= i < |sheets[edits[k].file].owners| ==>
      && SiteClear(sheets[edits[k].file], forms, k, edits[k].find, i)
      && SiteClear(sheets[edits[k].file], forms, k, edits[k].replace, i)
  }

  function Window(s: Sheet, forms: seq<string>, i: nat): string
    requires Proper(s, |forms|) && i < |s.owners|
  {
    Left(s, forms, i) + s.gaps[i] + forms[s.owners[i]] + s.gaps[i + 1] + Right(s, forms, i)
  }

  function Left(s: Sheet, forms: seq<string>, i: nat): string
    requires Proper(s, |forms|) && i < |s.owners|
  {
    if i > 0 then forms[s.owners[i - 1]] else ""
  }

  function Right(s: Sheet, forms: seq<string>, i: nat): string
    requires Proper(s, |forms|) && i < |s.owners|
  {
    if i + 1 < |s.owners| then forms[s.owners[i + 1]] else ""
  }

  /** The window around site `i` begins where the site before it does. */
  function WindowStart(s: Sheet, forms: seq<string>, i: nat): nat
    requires Proper(s, |forms|) && i < |s.owners|
  {
    if i > 0 then Start(s, forms, i - 1) else 0
  }

  lemma {:induction false} WindowPlace(s: Sheet, forms: seq<string>, i: nat)
    requires Proper(s, |forms|) && i < |s.owners|
    ensures var at := WindowStart(s, forms, i);
            && at + |Window(s, forms, i)| <= |Whole(s, forms)|
            && Whole(s, forms)[at..at + |Window(s, forms, i)|] == Window(s, forms, i)
            && Start(s, forms, i) == at + |Left(s, forms, i) + s.gaps[i]|
            && (i + 1 < |s.owners| ==>
                  Start(s, forms, i + 1) == Start(s, forms, i) + |forms[s.owners[i]] + s.gaps[i + 1]|)
            && (i + 1 == |s.owners| ==> at + |Window(s, forms, i)| == |Whole(s, forms)|)
  {
    RenderFrom(s, forms, 0, i);
    StartAfterGap(s, forms, i);
    if i + 1 < |s.owners| { StartAfterGap(s, forms, i + 1); }
    if i > 0 { PreExtends(s, forms, 0, i - 1); }
    var at := WindowStart(s, forms, i);
    var pre, form, rest := Pre(s, forms, 0, i), forms[s.owners[i]], Render(s, forms, i + 1);
    var right := s.gaps[i + 1] + Right(s, forms, i);
    assert |right| <= |rest| && rest[..|right|] == right;
    assert pre[at..] == Left(s, forms, i) + s.gaps[i];
    hide *;
    Cut(pre, form, rest, at, |right|);
    assert Window(s, forms, i) == (Left(s, forms, i) + s.gaps[i]) + form + right by { WindowIs(s, forms, i); }
  }

  lemma WindowIs(s: Sheet, forms: seq<string>, i: nat)
    requires Proper(s, |forms|) && i < |s.owners|
    ensures Window(s, forms, i)
         == (Left(s, forms, i) + s.gaps[i]) + forms[s.owners[i]] + (s.gaps[i + 1] + Right(s, forms, i))
  {}

  lemma Cut(a: string, b: string, c: string, at: nat, n: nat)
    requires at <= |a| && n <= |c|
    ensures (a + b + c)[at..|a| + |b| + n] == a[at..] + b + c[..n]
  {}

  /** The last site that starts at or before `j` lies just before this one; there may be none after it. */
  lemma {:induction false} SiteBehind(s: Sheet, forms: seq<string>, j: nat, m: nat) returns (n: nat)
    requires Proper(s, |forms|) && m < |s.owners|
    requires forall i :: 0 <= i < m ==> Start(s, forms, i) <= j
    ensures n < |s.owners| && (n > 0 ==> Start(s, forms, n - 1) <= j)
    ensures j < Start(s, forms, n) || n + 1 == |s.owners|
    decreases |s.owners| - m
  {
    hide Start;
    if j < Start(s, forms, m) || m + 1 == |s.owners| {
      n := m;
    } else {
      n := SiteBehind(s, forms, j, m + 1);
    }
  }

  /** Clear windows keep a form at home. */
  lemma {:induction false} ClearIsHome(s: Sheet, forms: seq<string>, k: nat, f: string)
    requires Proper(s, |forms|) && s.owners != []
    requires forall i :: 0 <= i < |s.owners| ==> SiteClear(s, forms, k, f, i)
    ensures AtHome(s, forms, k, f)
  {
    forall j: nat | OccursAt(Whole(s, forms), f, j) ensures WithinSite(s, forms, k, f, j) {
      var n := SiteBehind(s, forms, j, 0);
      OccurrenceAtHome(s, forms, k, f, j, n);
    }
  }

  lemma {:induction false} OccurrenceAtHome(s: Sheet, forms: seq<string>, k: nat, f: string, j: nat, n: nat)
    requires Proper(s, |forms|) && n < |s.owners| && SiteClear(s, forms, k, f, n)
    requires OccursAt(Whole(s, forms), f, j) && (n > 0 ==> Start(s, forms, n - 1) <= j)
    requires j < Start(s, forms, n) || n + 1 == |s.owners|
    ensures WithinSite(s, forms, k, f, j)
  {
    WindowPlace(s, forms, n);
    var text, at, window := Whole(s, forms), WindowStart(s, forms, n), Window(s, forms, n);
    hide Whole, Start, Surrounds;
    if j + |f| <= at + |window| {
      InnerOccurrence(text, window, f, at, j);
      PieceAtHome(s, forms, k, f, n, j - at);
    } else {
      TwoSitesReached(s, forms, k, f, j, n);
    }
  }

  lemma InnerOccurrence(text: string, window: string, f: string, at: nat, j: nat)
    requires at + |window| <= |text| && text[at..at + |window|] == window
    requires OccursAt(text, f, j) && at <= j && j + |f| <= at + |window|
    ensures OccursAt(window, f, j - at)
  {
    SliceOfSlice(text, at, at + |window|, j - at, j - at + |f|);
  }

  lemma {:induction false} PieceAtHome(s: Sheet, forms: seq<string>, k: nat, f: string, n: nat, j: nat)
    requires Proper(s, |forms|) && n < |s.owners| && SiteClear(s, forms, k, f, n)
    requires OccursAt(Window(s, forms, n), f, j)
    ensures WithinSite(s, forms, k, f, WindowStart(s, forms, n) + j)
  {
    WindowPlace(s, forms, n);
    var at := WindowStart(s, forms, n) + j;
    var x, g, y, h, z :=
      Left(s, forms, n), s.gaps[n], forms[s.owners[n]], s.gaps[n + 1], Right(s, forms, n);
    assert OccursAt(x + g + y + h + z, f, j) && j + |f| <= |x + g + y + h + z|;
    hide Start, Whole, OccursAt, Surrounds;
    if OwnerIs(s, n - 1, k) && j + |f| <= |x| {
      assert InSite(s, forms, n - 1, f, at);
    } else if OwnerIs(s, n, k) && |x + g| <= j && j + |f| <= |x + g + y| {
      assert InSite(s, forms, n, f, at);
    } else {
      assert InSite(s, forms, n + 1, f, at);
    }
  }

  lemma {:induction false} TwoSitesReached(s: Sheet, forms: seq<string>, k: nat, f: string, j: nat, n: nat)
    requires Proper(s, |forms|) && n < |s.owners| && OccursAt(Whole(s, forms), f, j)
    requires j < Start(s, forms, n) || n + 1 == |s.owners|
    requires j + |f| > WindowStart(s, forms, n) + |Window(s, forms, n)|
    ensures n + 1 < |s.owners| && Surrounds(f, forms[s.owners[n]] + s.gaps[n + 1] + forms[s.owners[n + 1]])
  {
    WindowPlace(s, forms, n);
    var text, window, at := Whole(s, forms), Window(s, forms, n), WindowStart(s, forms, n);
    var head, tail := Left(s, forms, n) + s.gaps[n], forms[s.owners[n]] + s.gaps[n + 1] + Right(s, forms, n);
    WindowEnds(s, forms, n);
    hide Whole, Start, Window, Left, Right, WindowStart;
    var a := at + |head| - j;
    SliceOfSlice(text, at, at + |window|, |head|, |window|);
    SliceOfSlice(text, j, j + |f|, a, a + |tail|);
    assert OccursAt(f, tail, a);
  }

  lemma WindowEnds(s: Sheet, forms: seq<string>, n: nat)
    requires Proper(s, |forms|) && n < |s.owners|
    ensures var head, tail := Left(s, forms, n) + s.gaps[n], forms[s.owners[n]] + s.gaps[n + 1] + Right(s, forms, n);
            && Window(s, forms, n) == head + tail
            && Window(s, forms, n)[|head|..|Window(s, forms, n)|] == tail
    ensures n + 1 < |s.owners| ==> Right(s, forms, n) == forms[s.owners[n + 1]]
  {}

  /** Clear gaps settle every stage of the run, whichever edits have been applied. */
  lemma {:induction false} GapsSuffice(edits: seq<Edit>, sheets: Sheets)
    requires Placed(edits, sheets) && GapsClear(edits, sheets)
    ensures forall done: Done :: |done| == |edits| ==> Settled(edits, sheets, done)
    ensures RunSettled(edits, sheets)
  {
    hide SiteClear, AtHome, SiteCount;
    forall done: Done, k | |done| == |edits| && 0 <= k < |edits| ensures SettledEdit(edits, sheets, done, k) {
      var forms, sheet := CurrentForms(edits, done), sheets[edits[k].file];
      assert WellSited(edits[k], sheets, k) && Choice(edits, forms);
      SomeSite(sheet, k);
      ClearIsHome(sheet, forms, k, edits[k].find);
      ClearIsHome(sheet, forms, k, edits[k].replace);
    }
  }

  lemma SomeSite(s: Sheet, k: nat)
    requires SiteCount(s, k, 0) > 0
    ensures s.owners != []
  {}

  // ----- forms that overlap each other

  function Row(c: char): string {
    ['|', c, '|']
  }

  const ROWS := [Edit("f", Row('a'), Row('A'), 1), Edit("f", Row('b'), Row('B'), 1)]

  const ROW_SHEET := Sheet(["", "-", ""], [0, 1])

  lemma {:induction false} RowPlaces(p: char, q: char)
    ensures Whole(ROW_SHEET, [Row(p), Row(q)]) == Row(p) + "-" + Row(q)
    ensures Start(ROW_SHEET, [Row(p), Row(q)], 0) == 0 && Start(ROW_SHEET, [Row(p), Row(q)], 1) == 4
  {
    var s, forms := ROW_SHEET, [Row(p), Row(q)];
    assert Render(s, forms, 2) == "" && Render(s, forms, 1) == "-" + Row(q) + "";
    assert "-" + Row(q) + "" == "-" + Row(q);
    assert Render(s, forms, 0) == "" + Row(p) + ("-" + Row(q));
    assert "" + Row(p) + ("-" + Row(q)) == Row(p) + "-" + Row(q);
    assert Pre(s, forms, 0, 0) == "" && Pre(s, forms, 1, 1) == "-" && Pre(s, forms, 0, 1) == "" + Row(p) + "-";
  }

  lemma {:induction false} RowAtHome(p: char, q: char, c: char, k: nat)
    requires k < 2 && c != '|' && c != '-' && (if k == 0 then q else p) != c
    ensures AtHome(ROW_SHEET, [Row(p), Row(q)], k, Row(c))
  {
    var s, forms := ROW_SHEET, [Row(p), Row(q)];
    RowPlaces(p, q);
    var text := Whole(s, forms);
    hide Whole, Start;
    forall j: nat | OccursAt(text, Row(c), j) ensures WithinSite(s, forms, k, Row(c), j) {
      assert text[j..j + 3][1] == text[j + 1] == c;
      assert InSite(s, forms, k, Row(c), j);
    }
  }

  /** Table rows share their borders, so their forms overlap; a run over them is settled all the same. */
  lemma RowsSettled()
    ensures Placed(ROWS, map["f" := ROW_SHEET]) && RunSettled(ROWS, map["f" := ROW_SHEET])
    ensures !NoOverlap(ROWS[0].find, ROWS[1].find) && !NoOverlap(ROWS[0].find, ROWS[0].replace)
  {
    var sheets: Sheets := map["f" := ROW_SHEET];
    assert Row('a')[1] == 'a' && Row('A')[1] == 'A' && Row('b')[1] == 'b' && Row('B')[1] == 'B';
    assert SiteCount(ROW_SHEET, 0, 2) == 0 && SiteCount(ROW_SHEET, 1, 2) == 0;
    assert SiteCount(ROW_SHEET, 0, 1) == 0 && SiteCount(ROW_SHEET, 1, 1) == 1;
    forall done: Done | |done| == 2 ensures Settled(ROWS, sheets, done) {
      var p, q := if done[0] then 'A' else 'a', if done[1] then 'B' else 'b';
      assert CurrentForms(ROWS, done) == [Row(p), Row(q)];
      RowAtHome(p, q, 'a', 0);
      RowAtHome(p, q, 'A', 0);
      RowAtHome(p, q, 'b', 1);
      RowAtHome(p, q, 'B', 1);
    }
    assert OverlapAt(ROWS[0].find, ROWS[1].find, 1) && OverlapAt(ROWS[0].find, ROWS[0].replace, 1);
  }
}

/**
 * The exact-edit half of `main` in scripts/rescope-vendor.ts: classify every edit, then
 * write all of them or none; and what a reversed run makes of the result.
 */
module EditRuns {
  import opened Substring
  import opened Seams
  import opened Windows
  import opened ExactEdit
  import opened EditStates

  datatype Edit = Edit(file: string, find: string, replace: string, expected: nat)

  type Files = map<string, string>

  datatype Mode = ApplyMode | CheckMode | DryMode

  /** A missing file stops the run, a bad edit refuses it, and otherwise the files are as given. */
  datatype Outcome = Crashed | Refused | Finished(files: Files)

  predicate WellFormed(edits: seq<Edit>) {
    forall i | 0 <= i < |edits| :: edits[i].find != "" && edits[i].replace != ""
  }

  /** The edit as `--reverse` sees it. */
  function Oriented(e: Edit, reverse: bool): Edit {
    if reverse then Edit(e.file, e.replace, e.find, e.expected) else e
  }

  function OrientedAll(edits: seq<Edit>, reverse: bool): (r: seq<Edit>)
    ensures |r| == |edits| && forall i :: 0 <= i < |r| ==> r[i] == Oriented(edits[i], reverse)
  {
    seq(|edits|, i requires 0 <= i < |edits| => Oriented(edits[i], reverse))
  }

  function StateOf(files: Files, e: Edit): EditState
    requires e.file in files && e.find != "" && e.replace != ""
  {
    ExactEditState(files[e.file], e.find, e.replace, e.expected)
  }

  function ApplyOne(files: Files, e: Edit): Files
    requires e.file in files && e.find != ""
  {
    files[e.file := Apply(files[e.file], e.find, e.replace)]
  }

  /** The edits of `edits` that are pending in `files`, in order. */
  function Planned(files: Files, edits: seq<Edit>): (r: seq<Edit>)
    requires WellFormed(edits) && forall e :: e in edits ==> e.file in files
    ensures WellFormed(r) && forall e :: e in r ==> e.file in files
    ensures forall e :: e in r <==> e in edits && StateOf(files, e) == Pending
  {
    if edits == [] then []
    else
      assert edits == edits[..|edits| - 1] + [edits[|edits| - 1]];
      var last := edits[|edits| - 1];
      Planned(files, edits[..|edits| - 1]) + if StateOf(files, last) == Pending then [last] else []
  }

  function ApplyAll(files: Files, edits: seq<Edit>): (r: Files)
    requires WellFormed(edits) && forall e :: e in edits ==> e.file in files
    ensures r.Keys == files.Keys
  {
    if edits == [] then files
    else ApplyOne(ApplyAll(files, edits[..|edits| - 1]), edits[|edits| - 1])
  }

  /** An edit the run cannot accept. */
  ghost predicate Bad(files: Files, e: Edit, mode: Mode)
    requires e.file in files && e.find != "" && e.replace != ""
  {
    StateOf(files, e) == Invalid || (mode.CheckMode? && StateOf(files, e) != Applied)
  }

  predicate AllExist(files: Files, edits: seq<Edit>) {
    forall e | e in edits :: e.file in files
  }

  ghost predicate AnyBad(files: Files, edits: seq<Edit>, mode: Mode)
    requires WellFormed(edits) && forall e :: e in edits ==> e.file in files
  {
    exists j :: 0 <= j < |edits| && Bad(files, edits[j], mode)
  }

  /** How many edits the run cannot accept: the number that its message names. */
  ghost function Problems(files: Files, edits: seq<Edit>, mode: Mode): nat
    requires WellFormed(edits) && forall e :: e in edits ==> e.file in files
  {
    if edits == [] then 0
    else
      var last := edits[|edits| - 1];
      Problems(files, edits[..|edits| - 1], mode) + if Bad(files, last, mode) then 1 else 0
  }

  /** The classification loop of `main`, which reads every file before any is written. */
  method Classify(files: Files, all: seq<Edit>, mode: Mode) returns (missing: bool, failures: nat, planned: seq<Edit>)
    requires WellFormed(all)
    ensures missing <==> !AllExist(files, all)
    ensures !missing ==> failures == Problems(files, all, mode) && (failures > 0 <==> AnyBad(files, all, mode))
    ensures !missing && failures == 0 && mode != CheckMode ==> planned == Planned(files, all)
    ensures !missing && failures == 0 && mode == CheckMode ==> planned == []
  {
    missing, failures, planned := false, 0, [];
    for i := 0 to |all|
      invariant WellFormed(all[..i]) && forall e :: e in all[..i] ==> e.file in files
      invariant failures == Problems(files, all[..i], mode)
      invariant failures == 0 ==> planned == if mode.CheckMode? then [] else Planned(files, all[..i])
    {
      var e := all[i];
      assert all[..i + 1] == all[..i] + [e];
      if e.file !in files { return true, failures, planned; }
      SnocProblem(files, all[..i], e, mode);
      SnocPlanned(files, all[..i], e);
      hide Problems, Planned, StateOf;
      var state := StateOf(files, e);
      if state == Invalid {
        failures := failures + 1;
      } else if mode.CheckMode? {
        if state != Applied { failures := failures + 1; }
      } else if state == Pending {
        planned := planned + [e];
      }
    }
    assert all[..|all|] == all;
    SomeProblem(files, all, mode);
  }

  lemma {:induction false} SomeProblem(files: Files, edits: seq<Edit>, mode: Mode)
    requires WellFormed(edits) && forall e :: e in edits ==> e.file in files
    ensures Problems(files, edits, mode) > 0 <==> AnyBad(files, edits, mode)
  {
    hide Bad;
    if edits != [] {
      var front, last := edits[..|edits| - 1], |edits| - 1;
      SomeProblem(files, front, mode);
      if j :| 0 <= j < last && Bad(files, front[j], mode) { assert edits[j] == front[j]; }
      if j :| 0 <= j < |edits| && Bad(files, edits[j], mode) { assert j < last ==> front[j] == edits[j]; }
    }
  }

  lemma {:induction false} SnocPlanned(files: Files, edits: seq<Edit>, e: Edit)
    requires WellFormed(edits) && e.find != "" && e.replace != ""
    requires e.file in files && forall x :: x in edits ==> x.file in files
    ensures WellFormed(edits + [e])
    ensures Planned(files, edits + [e]) == Planned(files, edits) + if StateOf(files, e) == Pending then [e] else []
  {
    hide StateOf;
    assert (edits + [e])[..|edits|] == edits;
  }

  lemma {:induction false} SnocProblem(files: Files, edits: seq<Edit>, e: Edit, mode: Mode)
    requires WellFormed(edits + [e]) && WellFormed(edits) && e.find != "" && e.replace != ""
    requires e.file in files && forall x :: x in edits ==> x.file in files
    ensures Problems(files, edits + [e], mode) == Problems(files, edits, mode) + if Bad(files, e, mode) then 1 else 0
  {
    hide Bad;
    assert (edits + [e])[..|edits|] == edits;
  }

  /** Some edit has neither all of its sites to do nor all of them done. */
  ghost predicate AnyMisplaced(files: Files, edits: seq<Edit>) {
    exists e :: e in edits && e.file in files && Misplaced(files[e.file], e.find, e.replace, e.expected)
  }

  lemma {:induction false} MisplacedIsBad(files: Files, edits: seq<Edit>, mode: Mode)
    requires WellFormed(edits)
    ensures AllExist(files, edits) && AnyMisplaced(files, edits) ==> AnyBad(files, edits, mode)
  {
    if AllExist(files, edits) && AnyMisplaced(files, edits) {
      var e :| e in edits && e.file in files && Misplaced(files[e.file], e.find, e.replace, e.expected);
      var j :| 0 <= j < |edits| && edits[j] == e;
      MisplacedIsInvalid(files[e.file], e.find, e.replace, e.expected);
      hide Misplaced, ExactEditState;
      assert Bad(files, edits[j], mode);
    }
  }

  /** The exact-edit half of `main`: classify everything first, then write all or nothing. */
  method RunEdits(files: Files, edits: seq<Edit>, reverse: bool, mode: Mode) returns (outcome: Outcome)
    requires WellFormed(edits)
    ensures WellFormed(OrientedAll(edits, reverse))
    ensures outcome.Crashed? <==> !AllExist(files, OrientedAll(edits, reverse))
    ensures AllExist(files, OrientedAll(edits, reverse)) ==>
      && (outcome.Refused? <==> AnyBad(files, OrientedAll(edits, reverse), mode))
      && (outcome.Finished? ==>
            outcome.files == if mode.ApplyMode? then ApplyAll(files, Planned(files, OrientedAll(edits, reverse)))
                             else files)
    ensures AllExist(files, OrientedAll(edits, reverse)) && AnyMisplaced(files, OrientedAll(edits, reverse)) ==>
      outcome == Refused
  {
    var all := OrientedAll(edits, reverse);
    var missing, failures, planned := Classify(files, all, mode);
    MisplacedIsBad(files, all, mode);
    if missing { return Crashed; }
    if failures > 0 { return Refused; }
    var current := files;
    if mode.ApplyMode? {
      current := Write(files, planned);
    }
    return Finished(current);
  }

  /** Each file is read again before its edit is written. */
  method Write(files: Files, planned: seq<Edit>) returns (current: Files)
    requires WellFormed(planned) && forall e :: e in planned ==> e.file in files
    ensures current == ApplyAll(files, planned)
  {
    current := files;
    for i := 0 to |planned|
      invariant WellFormed(planned[..i]) && (forall e :: e in planned[..i] ==> e.file in files)
      invariant current == ApplyAll(files, planned[..i])
    {
      assert planned[..i + 1][..i] == planned[..i];
      current := ApplyOne(current, planned[i]);
    }
    assert planned[..|planned|] == planned;
  }

  // ----- edits of one file that do not meet

  /** Edits of one file whose forms, all four of them, neither contain nor overlap each other. */
  ghost predicate SeparateEdits(a: Edit, b: Edit) {
    a.file == b.file ==>
      && Separate(a.find, b.find) && Separate(a.find, b.replace)
      && Separate(a.replace, b.find) && Separate(a.replace, b.replace)
  }

  ghost predicate Independent(edits: seq<Edit>) {
    forall i, j :: 0 <= i < j < |edits| ==> SeparateEdits(edits[i], edits[j])
  }

  predicate Usable(files: Files, e: Edit) {
    e.file in files && e.find != "" && e.replace != ""
  }

  lemma SeparateEitherWay(a: Edit, b: Edit)
    requires SeparateEdits(a, b)
    ensures SeparateEdits(b, a)
    ensures SeparateEdits(a, Oriented(b, true)) && SeparateEdits(Oriented(a, true), b)
  {
    if a.file == b.file {
      SeparateBothWays(a.find, b.find);
      SeparateBothWays(a.find, b.replace);
      SeparateBothWays(a.replace, b.find);
      SeparateBothWays(a.replace, b.replace);
    }
  }

  /** Applying one edit does not change the state of another. */
  lemma {:induction false} StateKept(files: Files, a: Edit, b: Edit)
    requires Usable(files, a) && Usable(files, b) && SeparateEdits(a, b)
    ensures StateOf(ApplyOne(files, a), b) == StateOf(files, b)
  {
    if a.file == b.file {
      SeparateEitherWay(a, b);
      hide Separate;
      CountKept(files[a.file], a.find, a.replace, b.find);
      CountKept(files[a.file], a.find, a.replace, b.replace);
    }
  }

  /** Two edits can be applied in either order. */
  lemma {:induction false} EditsCommute(files: Files, a: Edit, b: Edit)
    requires Usable(files, a) && Usable(files, b) && SeparateEdits(a, b)
    ensures ApplyOne(ApplyOne(files, a), b) == ApplyOne(ApplyOne(files, b), a)
  {
    hide Apply;
    if a.file == b.file {
      Commute(files[a.file], a.find, a.replace, b.find, b.replace);
    }
  }

  lemma {:induction false} CommuteThrough(files: Files, e: Edit, edits: seq<Edit>)
    requires Usable(files, e) && WellFormed(edits) && forall x :: x in edits ==> x.file in files
    requires forall x :: x in edits ==> SeparateEdits(e, x)
    ensures ApplyAll(ApplyOne(files, e), edits) == ApplyOne(ApplyAll(files, edits), e)
  {
    hide SeparateEdits, ApplyOne;
    ApplyOneKeys(files, e);
    if edits != [] {
      var before, last := edits[..|edits| - 1], edits[|edits| - 1];
      CommuteThrough(files, e, before);
      EditsCommute(ApplyAll(files, before), e, last);
    }
  }

  lemma ApplyOneKeys(files: Files, e: Edit)
    requires Usable(files, e)
    ensures ApplyOne(files, e).Keys == files.Keys
  {}

  // ----- an edit that lands and can be taken back

  /** Taken by itself, the pending edit lands, is pending again in reverse, and is undone exactly. */
  ghost predicate Lands(files: Files, e: Edit) {
    && Usable(files, e) && StateOf(files, e) == Pending
    && var after := ApplyOne(files, e);
    var back := Oriented(e, true);
    && StateOf(after, e) == Applied && StateOf(after, back) == Pending
    && ApplyOne(after, back) == files
  }

  /** The cuts are clean, and an edit that does not keep its source form does not form it again. */
  ghost predicate Clean(text: string, e: Edit) {
    && e.find != "" && e.replace != "" && e.find != e.replace
    && CutsClean(Split(text, e.find), e.replace)
    && (Includes(e.replace, e.find) || !Forms(Split(text, e.find), e.replace, e.find))
  }

  /** A pending edit lands exactly where it is clean, whatever its kind. */
  lemma {:induction false} CleanLands(files: Files, e: Edit)
    requires Usable(files, e) && e.find != e.replace && StateOf(files, e) == Pending
    ensures Lands(files, e) <==> Clean(files[e.file], e)
  {
    var text := files[e.file];
    LandsIff(text, e.find, e.replace, e.expected);
    hide ExactEditState, CutsClean, Forms, Includes, Apply;
    assert Lands(files, e) <==> LandsIn(text, e.find, e.replace, e.expected);
  }

  /** Whether an edit lands does not depend on the others. */
  lemma {:induction false} LandsKept(files: Files, a: Edit, b: Edit)
    requires Usable(files, a) && Lands(files, b) && SeparateEdits(a, b)
    ensures Lands(ApplyOne(files, a), b)
  {
    hide StateOf, SeparateEdits, ApplyOne;
    var back := Oriented(b, true);
    SeparateEitherWay(a, b);
    ApplyOneKeys(files, a);
    ApplyOneKeys(files, b);
    StateKept(files, a, b);
    EditsCommute(files, a, b);
    StateKept(ApplyOne(files, b), a, b);
    StateKept(ApplyOne(files, b), a, back);
    EditsCommute(ApplyOne(files, b), a, back);
  }

  lemma {:induction false} LandsThrough(files: Files, edits: seq<Edit>, e: Edit)
    requires WellFormed(edits) && (forall x :: x in edits ==> x.file in files && SeparateEdits(x, e)) && Lands(files, e)
    ensures Lands(ApplyAll(files, edits), e)
  {
    hide Lands, SeparateEdits;
    if edits != [] {
      var before, last := edits[..|edits| - 1], edits[|edits| - 1];
      assert edits == before + [last];
      LandsThrough(files, before, e);
      LandsKept(ApplyAll(files, before), last, e);
    }
  }

  // ----- the whole run, and the reversed run

  /** The edit landed: it is applied, and pending in reverse. */
  ghost predicate Landed(files: Files, e: Edit) {
    Usable(files, e) && StateOf(files, e) == Applied && StateOf(files, Oriented(e, true)) == Pending
  }

  lemma {:induction false} LandedKept(files: Files, a: Edit, e: Edit)
    requires Usable(files, a) && SeparateEdits(a, e) && Landed(files, e)
    ensures Landed(ApplyOne(files, a), e)
  {
    SeparateEitherWay(a, e);
    hide StateOf, SeparateEdits;
    StateKept(files, a, e);
    StateKept(files, a, Oriented(e, true));
  }

  lemma {:induction false} IndependentSnoc(before: seq<Edit>, last: Edit)
    requires Independent(before + [last])
    ensures Independent(before)
    ensures forall x :: x in before ==> SeparateEdits(x, last) && SeparateEdits(last, Oriented(x, true))
  {
    var edits := before + [last];
    hide SeparateEdits;
    assert forall i :: 0 <= i < |before| ==> edits[i] == before[i];
    forall x | x in before ensures SeparateEdits(x, last) && SeparateEdits(last, Oriented(x, true)) {
      var i :| 0 <= i < |before| && before[i] == x;
      assert SeparateEdits(edits[i], edits[|before|]);
      SeparateEitherWay(x, last);
      SeparateEitherWay(last, x);
    }
  }

  lemma OrientedSnoc(before: seq<Edit>, last: Edit)
    ensures OrientedAll(before + [last], true) == OrientedAll(before, true) + [Oriented(last, true)]
  {}

  lemma ApplySnoc(files: Files, before: seq<Edit>, last: Edit)
    requires WellFormed(before + [last]) && forall e :: e in before + [last] ==> e.file in files
    ensures WellFormed(before) && (forall e :: e in before ==> e.file in files) && last.file in files && last.find != ""
    ensures ApplyAll(files, before + [last]) == ApplyOne(ApplyAll(files, before), last)
  {
    assert (before + [last])[..|before|] == before && (before + [last])[|before|] == last;
    assert forall i :: 0 <= i < |before| ==> before[i] == (before + [last])[i];
  }

  /** All edits land, and the reversed run, in the same order, restores every file. */
  ghost predicate LandTogether(files: Files, edits: seq<Edit>) {
    var back := OrientedAll(edits, true);
    && WellFormed(edits) && (forall e :: e in edits ==> e.file in files)
    && WellFormed(back) && (forall e :: e in back ==> e.file in files)
    && (forall e :: e in edits ==> Landed(ApplyAll(files, edits), e))
    && ApplyAll(ApplyAll(files, edits), back) == files
  }

  /** Independent edits that each land by themselves all land together. */
  lemma {:induction false} AllLand(files: Files, edits: seq<Edit>)
    requires Independent(edits) && forall e :: e in edits ==> Lands(files, e)
    ensures LandTogether(files, edits)
  {
    hide *;
    if edits == [] {
      NothingLands(files);
    } else {
      var before, last := edits[..|edits| - 1], edits[|edits| - 1];
      assert edits == before + [last];
      IndependentSnoc(before, last);
      AllLand(files, before);
      LastLands(files, before, last);
    }
  }

  lemma NothingLands(files: Files)
    ensures LandTogether(files, [])
  {
    assert OrientedAll([], true) == [];
  }

  lemma FormsUsable(files: Files, edits: seq<Edit>)
    requires forall e :: e in edits ==> Lands(files, e)
    ensures WellFormed(edits) && WellFormed(OrientedAll(edits, true))
    ensures forall e :: e in edits ==> Usable(files, e)
    ensures forall e :: e in OrientedAll(edits, true) ==> Usable(files, e)
  {
    hide StateOf, ApplyOne;
    assert forall i :: 0 <= i < |edits| ==> edits[i] in edits;
  }

  lemma {:induction false} LastLands(files: Files, before: seq<Edit>, last: Edit)
    requires LandTogether(files, before)
    requires forall x :: x in before + [last] ==> Lands(files, x)
    requires forall x :: x in before ==> SeparateEdits(x, last) && SeparateEdits(last, Oriented(x, true))
    ensures LandTogether(files, before + [last])
  {
    FormsUsable(files, before + [last]);
    OrientedSnoc(before, last);
    var mid, back := ApplyAll(files, before), OrientedAll(before, true);
    hide StateOf, SeparateEdits, ApplyOne, ApplyAll, WellFormed;
    ApplySnoc(files, before, last);
    LandsThrough(files, before, last);
    assert last in before + [last];
    var after := ApplyOne(mid, last);
    ApplyOneKeys(mid, last);
    forall e | e in before + [last] ensures Landed(after, e) {
      if e in before { LandedKept(mid, last, e); }
    }
    TakenBack(files, mid, back, last);
  }

  /** Taking back the edits before the last one, and then the last. */
  lemma {:induction false} TakenBack(files: Files, mid: Files, back: seq<Edit>, last: Edit)
    requires Lands(files, last) && Usable(mid, last) && WellFormed(back + [Oriented(last, true)])
      && mid.Keys == files.Keys
    requires WellFormed(back) && forall e :: e in back ==> e.file in files && SeparateEdits(last, e)
    requires ApplyAll(mid, back) == files
    ensures (forall e :: e in back + [Oriented(last, true)] ==> e.file in ApplyOne(mid, last))
    ensures ApplyAll(ApplyOne(mid, last), back + [Oriented(last, true)]) == files
  {
    hide StateOf, SeparateEdits, ApplyOne, ApplyAll, WellFormed;
    ApplyOneKeys(mid, last);
    CommuteThrough(mid, last, back);
    ApplySnoc(ApplyOne(mid, last), back, Oriented(last, true));
  }

  lemma {:induction false} PlannedAll(files: Files, edits: seq<Edit>)
    requires WellFormed(edits) && forall e :: e in edits ==> e.file in files && StateOf(files, e) == Pending
    ensures Planned(files, edits) == edits
  {
    if edits != [] {
      var before, last := edits[..|edits| - 1], edits[|edits| - 1];
      assert edits == before + [last];
      hide StateOf;
      PlannedAll(files, before);
    }
  }

  /**
   * A run over clean pending edits whose forms never meet, in whatever text: every edit
   * lands, and a reversed run accepts all of them and restores every file.
   */
  lemma {:induction false} SeparateRoundTrip(files: Files, edits: seq<Edit>)
    requires WellFormed(edits) && Independent(edits)
    requires forall e :: e in edits ==> e.file in files && Clean(files[e.file], e) && StateOf(files, e) == Pending
    ensures var after, back := ApplyAll(files, Planned(files, edits)), OrientedAll(edits, true);
            && (forall e :: e in edits ==> e.file in after && StateOf(after, e) == Applied)
            && WellFormed(back) && (forall e :: e in back ==> e.file in after && StateOf(after, e) == Pending)
            && ApplyAll(after, Planned(after, back)) == files
  {
    assert forall e :: e in edits ==> Usable(files, e) && e.find != e.replace;
    hide StateOf, Clean, Lands, Independent;
    forall e | e in edits ensures Lands(files, e) { CleanLands(files, e); }
    FormsUsable(files, edits);
    PlannedAll(files, edits);
    AllLand(files, edits);
    hide ApplyAll;
    var after, back := ApplyAll(files, edits), OrientedAll(edits, true);
    forall e | e in back ensures e.file in after && StateOf(after, e) == Pending {
      var i :| 0 <= i < |back| && back[i] == e;
      assert edits[i] in edits && Landed(after, edits[i]);
    }
    PlannedAll(after, back);
  }
}

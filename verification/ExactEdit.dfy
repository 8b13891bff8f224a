/** One exact edit of scripts/rescope-vendor.ts: classification, application, reversal. */
module ExactEdit {
  import opened Text
  import opened Substring
  import opened Seams
  import opened Windows

  datatype EditState = Pending | Applied | Invalid

  /** `exactEditState`, for the non-empty forms every edit has. */
  function ExactEditState(text: string, find: string, replace: string, expected: nat): EditState
    requires find != "" && replace != ""
  {
    var hits, landed := Count(text, find), Count(text, replace);
    if Includes(replace, find) then
      if landed == expected then Applied else if landed == 0 && hits == expected then Pending else Invalid
    else if Includes(find, replace) then
      if hits == 0 then if landed == expected then Applied else Invalid
      else if hits == expected then Pending else Invalid
    else if hits == 0 && landed == expected then Applied
    else if hits == expected && landed == 0 then Pending
    else Invalid
  }

  // ----- reversal

  /** Among these parts the separator comes first where it joins them, and nowhere in the last. */
  ghost predicate CutsClean(parts: seq<string>, r: string) {
    && parts != []
    && (forall i :: 0 <= i < |parts| - 1 ==> IndexFrom(parts[i] + r, r, 0) == |parts[i]|)
    && !Includes(parts[|parts| - 1], r)
  }

  /** Splitting gives back what was joined exactly at clean cuts. */
  lemma {:induction false} SplitsBack(parts: seq<string>, r: string)
    requires parts != [] && r != ""
    ensures Split(Join(parts, r), r) == parts <==> CutsClean(parts, r)
  {
    if |parts| == 1 {
      CountZero(parts[0], r);
    } else {
      var rest := Join(parts[1..], r);
      SplitsBack(parts[1..], r);
      CutsCons(parts, r);
      JoinCons(parts[0], parts[1..], r);
      assert parts == [parts[0]] + parts[1..];
      hide CutsClean, Join;
      FirstCut(parts[0], r, rest);
    }
  }

  lemma {:induction false} CutsCons(parts: seq<string>, r: string)
    requires |parts| > 1
    ensures CutsClean(parts, r) <==> IndexFrom(parts[0] + r, r, 0) == |parts[0]| && CutsClean(parts[1..], r)
  {
    hide IndexFrom, Includes;
    assert forall i :: 0 < i < |parts| ==> parts[i] == parts[1..][i - 1];
    assert forall i :: 0 <= i < |parts| - 1 ==> parts[1..][i] == parts[i + 1];
  }

  lemma {:induction false} FirstCut(x: string, r: string, rest: string)
    requires r != ""
    ensures IndexFrom(x + r, r, 0) == |x| ==> Split(x + r + rest, r) == [x] + Split(rest, r)
    ensures Split(x + r + rest, r)[0] == x ==> IndexFrom(x + r, r, 0) == |x|
  {
    var s := x + r + rest;
    assert s[|x|..|x| + |r|] == r && OccursAt(s, r, |x|);
    SplitSome(s, r);
    assert x + r + "" == x + r;
    if IndexFrom(x + r, r, 0) == |x| {
      FirstStays(x, r, "", rest);
      assert s[..|x|] == x && s[|x| + |r|..] == rest;
    } else if Split(s, r)[0] == x {
      FirstStays(x, r, rest, "");
    }
  }

  /** Where the target form is absent and has no border, every cut is clean. */
  lemma {:induction false} UnborderedCutsClean(text: string, find: string, replace: string)
    requires find != "" && replace != "" && Unbordered(replace) && !Includes(text, replace)
    ensures CutsClean(Split(text, find), replace)
  {
    var parts := Split(text, find);
    forall x | x in parts ensures !Includes(x, replace) {
      if Includes(x, replace) { PieceIncludes(text, find, x, replace); }
    }
    SplitOfJoin(parts, replace);
    SplitAllFree(parts, replace);
    SplitsBack(parts, replace);
  }

  /** What is put where the pieces of a text were cut begins like the text itself up to the first cut. */
  lemma {:induction false} FirstCutAgrees(text: string, f: string, r: string)
    requires f != "" && r != "" && |Split(text, f)| > 1
    requires Apply(Apply(text, f, r), r, f) == text
    ensures var i, rest := IndexFrom(text, f, 0), text[IndexFrom(text, f, 0) + |f|..];
            && IndexFrom(text[..i] + r, r, 0) == i
            && Apply(Apply(rest, f, r), r, f) == rest
  {
    SplitNone1(text, f);
    ApplyFirst(text, f, r);
    var i := IndexFrom(text, f, 0);
    var x, rest := text[..i], text[i + |f|..];
    var joined := Apply(text, f, r);
    var after := Apply(rest, f, r);
    assert joined[i..i + |r|] == r && OccursAt(joined, r, i);
    ApplyFirst(joined, r, f);
    var j := IndexFrom(joined, r, 0);
    assert joined[..j] == text[..j] && text[j..j + |f|] == f && OccursAt(text, f, j);
    assert j == i && joined[i + |r|..] == after;
    assert text == x + f + Apply(after, r, f);
    assert text[i + |f|..] == Apply(after, r, f);
    assert x + r + after == joined && x + r + "" == x + r;
    FirstStays(x, r, after, "");
  }

  lemma SplitNone1(text: string, f: string)
    requires f != "" && |Split(text, f)| > 1
    ensures IndexFrom(text, f, 0) != -1
  {}

  /** An edit is undone exactly where every cut is clean: whatever its forms, in whatever text. */
  lemma {:induction false} UndoneIff(text: string, find: string, replace: string)
    requires find != "" && replace != ""
    ensures Apply(Apply(text, find, replace), replace, find) == text <==> CutsClean(Split(text, find), replace)
  {
    var parts := Split(text, find);
    SplitsBack(parts, replace);
    JoinSplitBy(text, find);
    if Apply(Apply(text, find, replace), replace, find) == text {
      UndoneCuts(text, find, replace);
    }
  }

  lemma {:induction false} UndoneCuts(text: string, find: string, replace: string)
    requires find != "" && replace != "" && Apply(Apply(text, find, replace), replace, find) == text
    ensures CutsClean(Split(text, find), replace)
    decreases |text|
  {
    hide *;
    if |Split(text, find)| > 1 {
      FirstPart(text, find);
      FirstCutAgrees(text, find, replace);
      UndoneCuts(text[IndexFrom(text, find, 0) + |find|..], find, replace);
      CutsCons(Split(text, find), replace);
    } else {
      WholePart(text, find, replace);
      UncutStays(text, replace, find);
    }
  }

  lemma FirstPart(text: string, f: string)
    requires f != "" && |Split(text, f)| > 1
    ensures var i, parts := IndexFrom(text, f, 0), Split(text, f);
            && 0 <= i && i + |f| <= |text|
            && parts[0] == text[..i] && |parts[0]| == i && parts[1..] == Split(text[i + |f|..], f)
  {
    SplitNone1(text, f);
    SplitSome(text, f);
  }

  lemma {:induction false} WholePart(text: string, f: string, r: string)
    requires f != "" && |Split(text, f)| <= 1
    ensures Apply(text, f, r) == text && !Includes(text, f)
    ensures CutsClean(Split(text, f), r) <==> !Includes(text, r)
  {
    CountZero(text, f);
    ApplyNone(text, f, r);
  }

  /** Restoring puts the source form into any text that holds the target form. */
  lemma {:induction false} UncutStays(text: string, r: string, f: string)
    requires f != "" && r != "" && Apply(text, r, f) == text && !Includes(text, f)
    ensures !Includes(text, r)
  {
    CountZero(text, r);
    if IndexFrom(text, r, 0) != -1 {
      ApplyFirst(text, r, f);
      PutIn(text[..IndexFrom(text, r, 0)], f, Apply(text[IndexFrom(text, r, 0) + |r|..], r, f));
    }
  }

  lemma PutIn(a: string, f: string, b: string)
    ensures Includes(a + f + b, f)
  {
    assert (a + f + b)[|a|..|a| + |f|] == f;
    assert OccursAt(a + f + b, f, |a|);
  }

  lemma {:induction false} IncludeEachOther(a: string, b: string)
    requires Includes(a, b) && Includes(b, a)
    ensures a == b
  {}

  // ----- an edit that lands and can be taken back

  /** Applying the edit completes it, and the reversed edit is then pending and restores the text. */
  ghost predicate LandsIn(text: string, find: string, replace: string, expected: nat)
    requires find != "" && replace != ""
  {
    var after := Apply(text, find, replace);
    && ExactEditState(after, find, replace, expected) == Applied
    && ExactEditState(after, replace, find, expected) == Pending
    && Apply(after, replace, find) == text
  }

  /** The kinds of edit differ in nothing but the form that must be gone. */
  lemma {:induction false} StatesByCounts(text: string, current: string, other: string, expected: nat)
    requires current != "" && other != "" && current != other && Count(text, current) == expected > 0
    requires Includes(current, other) || Count(text, other) == 0
    ensures ExactEditState(text, current, other, expected) == Pending
    ensures ExactEditState(text, other, current, expected) == Applied
  {
    if Includes(current, other) && Includes(other, current) { IncludeEachOther(current, other); }
    CountZero(text, current);
    CountZero(text, other);
  }

  lemma {:induction false} PendingCounts(text: string, find: string, replace: string, expected: nat)
    requires find != "" && replace != "" && find != replace && ExactEditState(text, find, replace, expected) == Pending
    ensures Count(text, find) == expected > 0
  {
    CountZero(text, find);
    CountZero(text, replace);
  }

  lemma {:induction false} AppliedCounts(text: string, find: string, replace: string, expected: nat)
    requires find != "" && replace != "" && ExactEditState(text, find, replace, expected) == Applied
    ensures Includes(replace, find) || Count(text, find) == 0
  {}

  /**
   * A pending edit of any kind lands, is pending in reverse and is undone if and only if
   * the cuts are clean and, unless it keeps its source form, the text between the sites
   * does not form that again.
   */
  lemma {:induction false} LandsIff(text: string, find: string, replace: string, expected: nat)
    requires find != "" && replace != "" && find != replace && ExactEditState(text, find, replace, expected) == Pending
    ensures var parts := Split(text, find);
            LandsIn(text, find, replace, expected) <==>
              CutsClean(parts, replace) && (Includes(replace, find) || !Forms(parts, replace, find))
  {
    var parts, after := Split(text, find), Apply(text, find, replace);
    hide ExactEditState, Forms, CutsClean;
    UndoneIff(text, find, replace);
    SplitsBack(parts, replace);
    JoinIncludesIff(parts, replace, find);
    CountZero(after, find);
    PendingCounts(text, find, replace, expected);
    if ExactEditState(after, find, replace, expected) == Applied { AppliedCounts(after, find, replace, expected); }
    if CutsClean(parts, replace) && (Includes(replace, find) || !Forms(parts, replace, find)) {
      StatesByCounts(after, replace, find, expected);
    }
  }

  /** Where neither form contains the other, it is enough to look at each part and the forms next to it. */
  lemma {:induction false} ReplacementLandsIff(text: string, find: string, replace: string, expected: nat)
    requires find != "" && replace != "" && ExactEditState(text, find, replace, expected) == Pending
    requires !Includes(replace, find) && !Includes(find, replace)
    ensures var parts := Split(text, find);
            LandsIn(text, find, replace, expected) <==>
              CutsClean(parts, replace) && !InOneWindow(parts, replace, find)
  {
    hide LandsIn, Forms, InOneWindow, CutsClean, ExactEditState;
    if find == replace { IncludesItself(find); }
    LandsIff(text, find, replace, expected);
    OneWindow(Split(text, find), replace, find);
  }

  lemma IncludesItself(s: string)
    ensures Includes(s, s)
  {
    assert s[0..|s|] == s && OccursAt(s, s, 0);
  }

  // ----- deletions

  /** What is kept of a deletion occurs nowhere else. */
  predicate KeptOnlyThere(text: string, find: string, replace: string)
    requires find != ""
  {
    forall x | x in Split(text, find) :: !Includes(x, replace)
  }

  /**
   * A pending deletion with an unbordered remainder is complete after applying it if and
   * only if the remainder occurs nowhere else and the text between the sites forms no new
   * site.
   */
  lemma {:induction false} DeletionAppliedIff(text: string, find: string, replace: string, expected: nat)
    requires find != "" && replace != "" && ExactEditState(text, find, replace, expected) == Pending
    requires Includes(find, replace) && find != replace && Unbordered(replace)
    ensures ExactEditState(Apply(text, find, replace), find, replace, expected) == Applied <==>
            KeptOnlyThere(text, find, replace) && !Forms(Split(text, find), replace, find)
  {
    var parts, after := Split(text, find), Apply(text, find, replace);
    if Includes(replace, find) { IncludeEachOther(find, replace); }
    hide Forms;
    DeletionCounts(text, find, replace);
    CountZero(after, find);
    JoinIncludesIff(parts, replace, find);
  }

  /** After a deletion the remainder is counted once at each site and where it was besides. */
  lemma {:induction false} DeletionCounts(text: string, find: string, replace: string)
    requires find != "" && replace != "" && Unbordered(replace)
    ensures Count(Apply(text, find, replace), replace) >= Count(text, find)
    ensures Count(Apply(text, find, replace), replace) == Count(text, find) <==> KeptOnlyThere(text, find, replace)
  {
    var parts := Split(text, find);
    SplitOfJoin(parts, replace);
    SplitAllCounts(parts, replace);
  }

  /** An unbordered remainder is cut cleanly if and only if it occurs nowhere else. */
  lemma {:induction false} DeletionUndoneIff(text: string, find: string, replace: string)
    requires find != "" && replace != "" && Includes(find, replace) && Unbordered(replace)
    ensures Apply(Apply(text, find, replace), replace, find) == text <==> KeptOnlyThere(text, find, replace)
  {
    var parts := Split(text, find);
    UndoneIff(text, find, replace);
    SplitsBack(parts, replace);
    SplitOfJoin(parts, replace);
    SplitAllCounts(parts, replace);
    if KeptOnlyThere(text, find, replace) { SplitAllFree(parts, replace); }
  }

  lemma {:induction false} OneCut(text: string, find: string, i: nat)
    requires find != "" && OccursAt(text, find, i) && forall j: nat :: j < i ==> !OccursAt(text, find, j)
    ensures Split(text, find) == [text[..i]] + Split(text[i + |find|..], find)
  {
    FirstIs(text, find, i);
    SplitSome(text, find);
  }

  /** What was deleted forms again from the text in front: the edit is still pending afterwards. */
  lemma DeletionReforms()
    ensures ExactEditState("xxr", "xr", "r", 1) == Pending
    ensures ExactEditState(Apply("xxr", "xr", "r"), "xr", "r", 1) != Applied
  {
    assert "xxr"[1..3] == "xr" && "xxr"[0..2] == "xx";
    OneCut("xxr", "xr", 1);
    assert "xxr"[..1] == "x" && "xxr"[3..] == "";
    SplitNone("", "xr");
    assert [""] == [""] && ["x"] + [""] == ["x", ""];
    assert !Includes("r", "xr");
    assert "xr"[1..2] == "r" && OccursAt("xr", "r", 1);
    JoinPair("x", "r");
    assert "x" + "r" == "xr" && OccursAt("xr", "xr", 0);
    CountZero("xr", "xr");
  }

  lemma FirstSiteAcross()
    ensures Split("bXabXbXab", "bXab") == [""] + Split("XbXab", "bXab")
  {
    var text := "bXabXbXab";
    assert text[0..4] == "bXab" && text[4..] == "XbXab" && text[..0] == "";
    OneCut(text, "bXab", 0);
  }

  lemma SecondSiteAcross()
    ensures Split("XbXab", "bXab") == ["X"] + Split("", "bXab")
  {
    var rest := "XbXab";
    assert rest[1..5] == "bXab" && rest[0..4] == "XbXa" && rest[..1] == "X" && rest[5..] == "";
    OneCut(rest, "bXab", 1);
  }

  lemma SplitAcross()
    ensures Split("bXabXbXab", "bXab") == ["", "X", ""]
  {
    hide *;
    FirstSiteAcross();
    SecondSiteAcross();
    NothingToCut();
    assert [""] + (["X"] + [""]) == ["", "X", ""];
  }

  lemma NothingToCut()
    ensures Split("", "bXab") == [""]
  {}

  lemma JoinAcross()
    ensures Join(["", "X", ""], "ab") == "abXab"
  {
    assert ["", "X", ""][1..] == ["X", ""];
    JoinPair("X", "ab");
    assert "" + "ab" + ("X" + "ab") == "abXab";
  }

  lemma FormsAcross()
    ensures !Includes("ab", "bXab") && Includes("bXab", "ab") && Includes("abXab", "bXab")
  {
    assert "bXab"[2..4] == "ab" && OccursAt("bXab", "ab", 2);
    assert "abXab"[1..5] == "bXab" && OccursAt("abXab", "bXab", 1);
  }

  /** Here the new site takes in a part of the remainder in front of it. */
  lemma DeletionReformsAcross()
    ensures ExactEditState("bXabXbXab", "bXab", "ab", 2) == Pending
    ensures ExactEditState(Apply("bXabXbXab", "bXab", "ab"), "bXab", "ab", 2) != Applied
  {
    SplitAcross();
    JoinAcross();
    FormsAcross();
    CountZero("abXab", "bXab");
    hide Includes, Split, Join;
  }

  lemma OneSite(text: string, find: string, i: nat, x: string, y: string)
    requires find != "" && text == x + find + y && |x| == i && !Includes(y, find)
    requires forall j: nat :: j < i ==> !OccursAt(text, find, j)
    ensures Split(text, find) == [x, y]
  {
    assert text[i..i + |find|] == find && text[..i] == x && text[i + |find|..] == y;
    OneCut(text, find, i);
    CountZero(y, find);
  }

  /** With a bordered remainder a deletion that is applied afterwards may still not be undone. */
  lemma BorderedDeletionNotUndone()
    ensures ExactEditState("axaa", "xaa", "aa", 1) == Pending && KeptOnlyThere("axaa", "xaa", "aa")
    ensures Apply(Apply("axaa", "xaa", "aa"), "aa", "xaa") != "axaa"
  {
    FormsOfAA();
    assert "axaa"[0..3] == "axa";
    assert "a" + "xaa" + "" == "axaa";
    OneSite("axaa", "xaa", 1, "a", "");
    hide Split, Includes;
    UndoneIff("axaa", "xaa", "aa");
    assert ("a" + "aa")[0..2] == "aa" && OccursAt("a" + "aa", "aa", 0);
  }

  /** And one whose remainder occurs nowhere else, and forms no new site, may not be applied. */
  lemma BorderedDeletionNotApplied()
    ensures ExactEditState("axaaa", "xaa", "aa", 1) == Pending && KeptOnlyThere("axaaa", "xaa", "aa")
    ensures !Forms(Split("axaaa", "xaa"), "aa", "xaa")
    ensures ExactEditState(Apply("axaaa", "xaa", "aa"), "xaa", "aa", 1) != Applied
  {
    FormsOfAA();
    assert "axaaa"[0..3] == "axa";
    assert "a" + "xaa" + "a" == "axaaa";
    OneSite("axaaa", "xaa", 1, "a", "a");
    JoinTwo("a", "a", "aa");
    assert "a" + "aa" + "a" == "aaaa";
    JoinIncludesIff(["a", "a"], "aa", "xaa");
    CountAAAA();
    hide Split, Includes, Join, Forms;
  }

  lemma FormsOfAA()
    ensures Includes("xaa", "aa") && !Includes("aa", "xaa") && !Includes("a", "aa") && !Includes("", "aa")
    ensures !Includes("a", "xaa") && !Includes("", "xaa") && !Includes("aaaa", "xaa")
  {
    assert "xaa"[1..3] == "aa" && OccursAt("xaa", "aa", 1);
    forall j: nat | j <= 4 ensures !OccursAt("aaaa", "xaa", j) {
      assert j + 3 <= 4 ==> "aaaa"[j..j + 3][0] == 'a';
    }
  }

  lemma CountAAAA()
    ensures Count("aaaa", "aa") == 2
  {
    assert "aaaa"[0..2] == "aa" && "aaaa"[..0] == "" && "aaaa"[2..] == "aa";
    OneCut("aaaa", "aa", 0);
    assert "aa"[0..2] == "aa" && "aa"[..0] == "" && "aa"[2..] == "";
    OneCut("aa", "aa", 0);
    SplitNone("", "aa");
  }

  lemma JoinTwo(x: string, y: string, r: string)
    ensures Join([x, y], r) == x + r + y
  {
    assert [x, y][1..] == [y];
  }

  // ----- the border condition is exact

  /** A character different from two given ones. */
  function OtherThan(c: char, d: char): (r: char)
    ensures r != c && r != d
  {
    if 'a' != c && 'a' != d then 'a' else if 'b' != c && 'b' != d then 'b' else 'c'
  }

  /** A long form stands right after `y`, whose last character it does not hold. */
  lemma {:induction false} FindAfter(y: string, find: string)
    requires 0 < |y| <= |find| && y[|y| - 1] !in find
    ensures Split(y + find, find) == [y, ""]
  {
    var text := y + find;
    forall j: nat | j < |y| ensures !OccursAt(text, find, j) {
      assert text[j..j + |find|][|y| - 1 - j] == y[|y| - 1];
    }
    assert text[|y|..|y| + |find|] == find;
    assert OccursAt(text, find, |y|);
    assert IndexFrom(text, find, 0) == |y|;
    SplitSome(text, find);
    assert text[|y| + |find|..] == "" && text[..|y|] == y;
    CountZero("", find);
  }

  lemma {:induction false} NotInText(replace: string, shift: nat, find: string)
    requires 0 < shift < |replace| && replace[shift - 1] !in find && replace[shift] !in find
    requires |find| > |replace|
    ensures !Includes(replace[..shift] + find, replace)
  {
    var text := replace[..shift] + find;
    forall j: nat | j + |replace| <= |text| ensures !OccursAt(text, replace, j) {
      var copy := text[j..j + |replace|];
      if j > 0 {
        assert copy[shift - 1] == find[j - 1];
      } else {
        assert copy[shift] == find[0];
      }
    }
  }

  lemma {:induction false} JoinPair(y: string, r: string)
    ensures Join([y, ""], r) == y + r
  {
    assert [y, ""][1..] == [""];
    assert Join([""], r) == "";
  }

  lemma {:induction false} JoinHead(parts: seq<string>, sep: string)
    requires |parts| > 1 && parts[0] == "" && sep != ""
    ensures Join(parts, sep) != "" && Join(parts, sep)[0] == sep[0]
  {}

  /** On this text a bordered target form cannot be undone. */
  lemma {:induction false} BorderedBreaks(replace: string, shift: nat) returns (text: string, find: string)
    requires BorderAt(replace, shift)
    ensures find != "" && !Includes(replace, find) && !Includes(find, replace)
    ensures ExactEditState(text, find, replace, 1) == Pending
    ensures Apply(Apply(text, find, replace), replace, find) != text
  {
    var y, c := replace[..shift], OtherThan(replace[shift - 1], replace[shift]);
    find := seq(|replace| + 1, _ => c);
    text := y + find;
    forall i: nat | i + |replace| <= |find| ensures !OccursAt(find, replace, i) {
      assert find[i..i + |replace|][shift] == c;
    }
    FindAfter(y, find);
    NotInText(replace, shift, find);
    CountZero(text, replace);
    JoinPair(y, replace);
    BorderedCut(replace, shift, find);
    assert replace[shift..][0] == replace[..|replace| - shift][0];
  }

  lemma {:induction false} BorderedCut(replace: string, shift: nat, find: string)
    requires BorderAt(replace, shift) && find != ""
    ensures Apply(replace[..shift] + replace, replace, find) != ""
      && Apply(replace[..shift] + replace, replace, find)[0] == find[0]
  {
    var after := replace[..shift] + replace;
    assert after[..|replace|] == replace[..shift] + replace[..|replace| - shift] == replace;
    assert OccursAt(after, replace, 0);
    SplitSome(after, replace);
    JoinHead(Split(after, replace), find);
  }

  /** Exactly the unbordered target forms can always be undone. */
  lemma {:induction false} ReversibleIffUnbordered(replace: string)
    requires replace != ""
    ensures Unbordered(replace) <==> forall text, find, expected |
      find != "" && !Includes(find, replace) && ExactEditState(text, find, replace, expected) == Pending ::
      Apply(Apply(text, find, replace), replace, find) == text
  {
    if Unbordered(replace) {
      forall text, find, expected |
        find != "" && !Includes(find, replace) && ExactEditState(text, find, replace, expected) == Pending
        ensures Apply(Apply(text, find, replace), replace, find) == text
      {
        CountZero(text, replace);
        UnborderedCutsClean(text, find, replace);
        UndoneIff(text, find, replace);
      }
    } else {
      var shift: nat :| BorderAt(replace, shift);
      var text, find := BorderedBreaks(replace, shift);
      assert ExactEditState(text, find, replace, 1) == Pending;
    }
  }
}

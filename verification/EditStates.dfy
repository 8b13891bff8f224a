/**
 * What `exactEditState` of scripts/rescope-vendor.ts is for: it tells from the text alone
 * at how many places the source form stands and at how many the target form.
 */
module EditStates {
  import opened Substring
  import opened ExactEdit
  import opened Sites

  const SOURCE: nat := 0
  const TARGET: nat := 1

  /**
   * The text is made of gaps and of sites between them, where the source form stands `k`
   * times and the target form `m` times; neither form is found outside a site.
   */
  ghost predicate Stands(text: string, find: string, replace: string, k: nat, m: nat) {
    exists s :: StandsAt(s, text, find, replace, k, m)
  }

  ghost predicate StandsAt(s: Sheet, text: string, find: string, replace: string, k: nat, m: nat) {
    && Proper(s, 2) && Whole(s, [find, replace]) == text
    && SiteCount(s, SOURCE, 0) == k && SiteCount(s, TARGET, 0) == m
    && OnlyAtSites(s, [find, replace], find) && OnlyAtSites(s, [find, replace], replace)
  }

  ghost predicate OnlyAtSites(s: Sheet, forms: seq<string>, f: string)
    requires Proper(s, |forms|)
  {
    forall j: nat :: OccursAt(Whole(s, forms), f, j) ==>
      WithinSite(s, forms, SOURCE, f, j) || WithinSite(s, forms, TARGET, f, j)
  }

  /** A form that fits into no site of the other owner, or meets none, is at home. */
  lemma {:induction false} OnlyOwner(s: Sheet, forms: seq<string>, owner: nat, other: nat, f: string)
    requires |forms| == 2 && Proper(s, 2) && OnlyAtSites(s, forms, f)
    requires (owner == SOURCE && other == TARGET) || (owner == TARGET && other == SOURCE)
    requires !Includes(forms[other], f) || SiteCount(s, other, 0) == 0
    ensures AtHome(s, forms, owner, f)
  {
    hide Whole, SiteCount;
    forall j: nat | OccursAt(Whole(s, forms), f, j) ensures WithinSite(s, forms, owner, f, j) {
      if WithinSite(s, forms, other, f, j) {
        var n: nat :| n < |s.owners| && s.owners[n] == other && InSite(s, forms, n, f, j);
        SiteIncludes(s, forms, n, f, j);
        SiteCounted(s, other, n, 0);
      }
    }
  }

  lemma {:induction false} SiteCounted(s: Sheet, k: nat, n: nat, i: nat)
    requires i <= n < |s.owners| && s.owners[n] == k
    ensures SiteCount(s, k, i) > 0
    decreases n - i
  {
    if i < n { SiteCounted(s, k, n, i + 1); }
  }

  /** What the two counts say of the sites, as far as the classification looks at them. */
  lemma {:induction false} CountsAtSites(text: string, find: string, replace: string, k: nat, m: nat)
    requires find != "" && replace != "" && Stands(text, find, replace, k, m)
    ensures !Includes(replace, find) || m == 0 ==> Count(text, find) == k
    ensures !Includes(find, replace) || k == 0 ==> Count(text, replace) == m
  {
    var s :| StandsAt(s, text, find, replace, k, m);
    var forms := [find, replace];
    hide OnlyAtSites, AtHome, Whole, Includes, SiteCount, Count;
    if !Includes(replace, find) || m == 0 {
      OnlyOwner(s, forms, SOURCE, TARGET, find);
      ApplySites(s, forms, SOURCE, replace);
    }
    if !Includes(find, replace) || k == 0 {
      OnlyOwner(s, forms, TARGET, SOURCE, replace);
      ApplySites(s, forms, TARGET, find);
    }
  }

  /** A replacement: nothing done, all done, or invalid. */
  lemma {:induction false} ReplacementState(text: string, find: string, replace: string, expected: nat, k: nat, m: nat)
    requires find != "" && replace != "" && expected > 0 && Stands(text, find, replace, k, m)
    requires !Includes(find, replace) && !Includes(replace, find)
    ensures ExactEditState(text, find, replace, expected)
         == if k == expected && m == 0 then Pending else if k == 0 && m == expected then Applied else Invalid
  {
    CountsAtSites(text, find, replace, k, m);
    hide Stands;
  }

  /** An insertion keeps its anchor, so anchors that stand bare beside the landed ones are not looked at. */
  lemma {:induction false} InsertionState(text: string, find: string, replace: string, expected: nat, k: nat, m: nat)
    requires find != "" && replace != "" && expected > 0 && Stands(text, find, replace, k, m)
    requires find != replace && Includes(replace, find)
    ensures ExactEditState(text, find, replace, expected)
         == if k == expected && m == 0 then Pending else if m == expected then Applied else Invalid
  {
    if Includes(find, replace) { IncludeEachOther(find, replace); }
    CountsAtSites(text, find, replace, k, m);
    hide Stands;
  }

  /** A deletion keeps its remainder, so remainders beside the source forms are not looked at. */
  lemma {:induction false} DeletionState(text: string, find: string, replace: string, expected: nat, k: nat, m: nat)
    requires find != "" && replace != "" && expected > 0 && Stands(text, find, replace, k, m)
    requires find != replace && Includes(find, replace)
    ensures ExactEditState(text, find, replace, expected)
         == if k == expected then Pending else if k == 0 && m == expected then Applied else Invalid
  {
    if Includes(replace, find) { IncludeEachOther(find, replace); }
    CountsAtSites(text, find, replace, k, m);
    hide Stands;
  }

  /** Moved away, done in part, or there too often: neither all to do nor all done. */
  ghost predicate Misplaced(text: string, find: string, replace: string, expected: nat) {
    && find != "" && replace != "" && find != replace && expected > 0
    && exists k, m :: Stands(text, find, replace, k, m) && !ToDo(find, replace, expected, k, m)
                      && !AllDone(find, replace, expected, k, m)
  }

  predicate ToDo(find: string, replace: string, expected: nat, k: nat, m: nat) {
    k == expected && (m == 0 || Includes(find, replace))
  }

  predicate AllDone(find: string, replace: string, expected: nat, k: nat, m: nat) {
    m == expected && (k == 0 || Includes(replace, find))
  }

  /** Such an edit is invalid, whatever its kind. */
  lemma {:induction false} MisplacedIsInvalid(text: string, find: string, replace: string, expected: nat)
    requires Misplaced(text, find, replace, expected)
    ensures ExactEditState(text, find, replace, expected) == Invalid
  {
    var k, m :| Stands(text, find, replace, k, m) && !ToDo(find, replace, expected, k, m)
                && !AllDone(find, replace, expected, k, m);
    hide Stands, ExactEditState;
    if Includes(replace, find) {
      InsertionState(text, find, replace, expected, k, m);
      if Includes(find, replace) { IncludeEachOther(find, replace); }
    } else if Includes(find, replace) {
      DeletionState(text, find, replace, expected, k, m);
    } else {
      ReplacementState(text, find, replace, expected, k, m);
    }
  }

  /** A site that moved away: neither form is left in the text. */
  lemma {:induction false} GoneIsMisplaced(text: string, find: string, replace: string, expected: nat)
    requires find != "" && replace != "" && find != replace && expected > 0
    requires !Includes(text, find) && !Includes(text, replace)
    ensures Misplaced(text, find, replace, expected)
  {
    var s := Sheet([text], []);
    assert Whole(s, [find, replace]) == text;
    forall f, j: nat | f in {find, replace} ensures !OccursAt(text, f, j) {
      assert !Includes(text, f);
    }
    assert StandsAt(s, text, find, replace, 0, 0);
    assert Stands(text, find, replace, 0, 0);
  }
}
